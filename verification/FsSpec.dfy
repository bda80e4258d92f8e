/** Files as byte sequences over blocks that share one bitmap: which slot of which inode holds which
    block, and what changing a block, a slot or a bit does to that and to the contents of files. */
module FsSpec {
  import opened Blocks
  import opened FsLayout

  /** The part of an inode that maps its content. */
  datatype File = File(size: nat, addrs: seq<nat>)

  function Zeros(n: nat): (z: seq<nat>)
    ensures |z| == n && forall k | 0 <= k < n :: z[k] == 0
  {
    seq(n, _ => 0)
  }

  function EmptyFile(): (f: File) {
    File(0, Zeros(NDIRECT + 1))
  }

  // Slots 0 to 11 are the direct entries, slot 12 is the pointer to the indirect block, and slot 13 + j is
  // entry j of the indirect block.

  const SLOTS: nat := NDIRECT + 1 + NINDIRECT

  function Slot(blocks: seq<Block>, f: File, s: nat): (b: nat)
    requires |f.addrs| == NDIRECT + 1 && f.addrs[NDIRECT] < |blocks| && s < SLOTS
  {
    if s <= NDIRECT then f.addrs[s]
    else if f.addrs[NDIRECT] == 0 then 0
    else WordAt(blocks[f.addrs[NDIRECT]], s - NDIRECT - 1)
  }

  /** The slot for block bn of a file. */
  function DataSlot(bn: nat): (s: nat)
    requires bn < MAXFILE
  {
    if bn < NDIRECT then bn else bn + 1
  }

  datatype Owner = Owner(inum: nat, slot: nat)

  predicate FileOk(blocks: seq<Block>, f: File) {
    |f.addrs| == NDIRECT + 1 && f.addrs[NDIRECT] < |blocks| && f.size <= MAXFILE * BSIZE
  }

  predicate FilesOk(blocks: seq<Block>, files: seq<File>) {
    forall i | 0 <= i < |files| :: FileOk(blocks, files[i])
  }

  /** Slot s of inode i is empty, or it is the one owner of the block it holds. */
  predicate SlotOwned(blocks: seq<Block>, files: seq<File>, owner: map<nat, Owner>, i: nat, s: nat)
    requires i < |files| && FileOk(blocks, files[i]) && s < SLOTS
  {
    var b := Slot(blocks, files[i], s);
    b != 0 ==> b in owner && owner[b] == Owner(i, s)
  }

  /** Block b is a data block, and its owner does hold it. */
  predicate OwnerHolds(sb: Superblock, blocks: seq<Block>, files: seq<File>, owner: map<nat, Owner>, b: nat)
    requires FilesOk(blocks, files) && b in owner
  {
    && sb.IsData(b) && owner[b].inum < |files| && owner[b].slot < SLOTS
    && Slot(blocks, files[owner[b].inum], owner[b].slot) == b
  }

  /** Slots and the blocks they hold correspond one to one. */
  ghost predicate Links(sb: Superblock, blocks: seq<Block>, files: seq<File>, owner: map<nat, Owner>) {
    && FilesOk(blocks, files)
    && (forall i, s | 0 <= i < |files| && 0 <= s < SLOTS :: SlotOwned(blocks, files, owner, i, s))
    && (forall b | b in owner :: OwnerHolds(sb, blocks, files, owner, b))
  }

  /** The bitmap marks the metadata blocks and the data blocks of the set, and nothing else. */
  ghost predicate Bits(sb: Superblock, blocks: seq<Block>, inuse: set<nat>) {
    && sb.Fits(blocks)
    && (forall b | b in inuse :: sb.IsData(b))
    && (forall b | 0 <= b < sb.size :: Used(sb, blocks, b) <==> b < sb.DataStart() || b in inuse)
  }

  /** Each block below the end of the file is mapped. */
  ghost predicate NoHoles(blocks: seq<Block>, f: File)
    requires FileOk(blocks, f)
  {
    forall bn | 0 <= bn < MAXFILE && bn * BSIZE < f.size :: Slot(blocks, f, DataSlot(bn)) != 0
  }

  /** The byte at position p of a file. */
  function ByteOf(blocks: seq<Block>, f: File, p: nat): (x: byte)
    requires FileOk(blocks, f) && p < MAXFILE * BSIZE
  {
    var b := Slot(blocks, f, DataSlot(p / BSIZE));
    if b < |blocks| then blocks[b].bytes[p % BSIZE] else 0
  }

  /** The content of a file: a sequence of size bytes. */
  function Contents(blocks: seq<Block>, f: File): (c: seq<byte>)
    requires FileOk(blocks, f)
  {
    seq(f.size, p requires 0 <= p < f.size => ByteOf(blocks, f, p))
  }

  /** What the bitmap promises: a block is in use if and only if it is metadata or some slot of some inode
      holds it, and then only that slot does. */
  lemma BitmapExact(sb: Superblock, blocks: seq<Block>, files: seq<File>, owner: map<nat, Owner>, b: nat)
    requires Links(sb, blocks, files, owner) && Bits(sb, blocks, owner.Keys) && b < sb.size && b != 0
    ensures Used(sb, blocks, b) && b >= sb.DataStart() <==>
            exists i, s :: 0 <= i < |files| && 0 <= s < SLOTS && Slot(blocks, files[i], s) == b
    ensures forall i, s, j, t | 0 <= i < |files| && 0 <= s < SLOTS && 0 <= j < |files| && 0 <= t < SLOTS
                                && Slot(blocks, files[i], s) == b == Slot(blocks, files[j], t) :: i == j && s == t
    ensures b < sb.DataStart() ==> Used(sb, blocks, b)
  {
    if b in owner {
      assert OwnerHolds(sb, blocks, files, owner, b);
    }
    forall i, s | 0 <= i < |files| && 0 <= s < SLOTS && Slot(blocks, files[i], s) == b
      ensures b in owner && owner[b] == Owner(i, s)
    {
      assert SlotOwned(blocks, files, owner, i, s);
    }
  }

  /** Changing blocks that no slot holds changes no slot and no file. */
  lemma LinksFrame(sb: Superblock, blocks: seq<Block>, blocks': seq<Block>, files: seq<File>, owner: map<nat, Owner>)
    requires Links(sb, blocks, files, owner) && |blocks'| == |blocks|
    requires forall k | k in owner && k < |blocks| :: blocks'[k] == blocks[k]
    ensures Links(sb, blocks', files, owner)
    ensures forall i, s | 0 <= i < |files| && 0 <= s < SLOTS :: Slot(blocks', files[i], s) == Slot(blocks, files[i], s)
  {
    forall i, s | 0 <= i < |files| && 0 <= s < SLOTS
      ensures Slot(blocks', files[i], s) == Slot(blocks, files[i], s) && SlotOwned(blocks', files, owner, i, s)
    {
      assert SlotOwned(blocks, files, owner, i, NDIRECT) && SlotOwned(blocks, files, owner, i, s);
      assert Slot(blocks, files[i], NDIRECT) == files[i].addrs[NDIRECT];
    }
    forall b | b in owner
      ensures OwnerHolds(sb, blocks', files, owner, b)
    {
      assert OwnerHolds(sb, blocks, files, owner, b);
    }
  }

  /** All slots but slot s of inode i hold what they held. */
  predicate OtherSlotsSame(blocks: seq<Block>, blocks': seq<Block>, files: seq<File>, files': seq<File>, i: nat, s: nat)
    requires FilesOk(blocks, files) && FilesOk(blocks', files') && |files'| == |files|
  {
    forall j, t | 0 <= j < |files| && 0 <= t < SLOTS && (j != i || t != s) ::
      Slot(blocks', files'[j], t) == Slot(blocks, files[j], t)
  }

  function SetAddr(f: File, s: nat, b: nat): (r: File)
    requires s < |f.addrs|
  {
    f.(addrs := f.addrs[s := b])
  }

  /** Linking from a change of one empty slot: enough that the slot now holds b and the others are the same. */
  lemma LinkSlot(sb: Superblock, blocks: seq<Block>, blocks': seq<Block>, files: seq<File>, files': seq<File>,
                 owner: map<nat, Owner>, i: nat, s: nat, b: nat)
    requires Links(sb, blocks, files, owner) && FilesOk(blocks', files') && |files'| == |files|
    requires i < |files| && s < SLOTS && sb.IsData(b) && b !in owner && b != 0
    requires Slot(blocks, files[i], s) == 0 && Slot(blocks', files'[i], s) == b
    requires OtherSlotsSame(blocks, blocks', files, files', i, s)
    ensures Links(sb, blocks', files', owner[b := Owner(i, s)])
  {
    var owner' := owner[b := Owner(i, s)];
    forall j, t | 0 <= j < |files'| && 0 <= t < SLOTS
      ensures SlotOwned(blocks', files', owner', j, t)
    {
      assert SlotOwned(blocks, files, owner, j, t);
    }
    forall x | x in owner'
      ensures OwnerHolds(sb, blocks', files', owner', x)
    {
      if x != b {
        assert OwnerHolds(sb, blocks, files, owner, x);
        assert Slot(blocks, files[owner[x].inum], owner[x].slot) == x;
      }
    }
  }

  /** bmap's assignment to ip->addrs[s]: a direct entry, or the pointer to a fresh, zeroed indirect block. */
  lemma LinkAddr(sb: Superblock, blocks: seq<Block>, files: seq<File>, owner: map<nat, Owner>, i: nat, s: nat, b: nat)
    requires Links(sb, blocks, files, owner) && i < |files| && s <= NDIRECT
    requires files[i].addrs[s] == 0 && sb.IsData(b) && b !in owner && 0 < b < |blocks|
    requires s == NDIRECT ==> blocks[b] == ZeroBlock()
    ensures var files' := files[i := SetAddr(files[i], s, b)];
            && Links(sb, blocks, files', owner[b := Owner(i, s)])
            && OtherSlotsSame(blocks, blocks, files, files', i, s)
  {
    var files' := files[i := SetAddr(files[i], s, b)];
    forall j, t | 0 <= j < |files| && 0 <= t < SLOTS && (j != i || t != s)
      ensures Slot(blocks, files'[j], t) == Slot(blocks, files[j], t)
    {
      if j == i && t > NDIRECT && s == NDIRECT {
        ZeroWords(t - NDIRECT - 1);
      }
    }
    LinkSlot(sb, blocks, blocks, files, files', owner, i, s, b);
  }

  /** bmap's assignment to entry e of the indirect block. */
  lemma LinkEntry(sb: Superblock, blocks: seq<Block>, files: seq<File>, owner: map<nat, Owner>, i: nat, e: nat, b: nat)
    requires Links(sb, blocks, files, owner) && i < |files| && e < NINDIRECT
    requires files[i].addrs[NDIRECT] != 0 && WordAt(blocks[files[i].addrs[NDIRECT]], e) == 0
    requires sb.IsData(b) && b !in owner && 0 < b < WORDLIMIT
    ensures var ind := files[i].addrs[NDIRECT];
            var blocks' := blocks[ind := PutWord(blocks[ind], e, b)];
            && Links(sb, blocks', files, owner[b := Owner(i, NDIRECT + 1 + e)])
            && OtherSlotsSame(blocks, blocks', files, files, i, NDIRECT + 1 + e)
  {
    var ind := files[i].addrs[NDIRECT];
    var blocks' := blocks[ind := PutWord(blocks[ind], e, b)];
    assert SlotOwned(blocks, files, owner, i, NDIRECT) && Slot(blocks, files[i], NDIRECT) == ind;
    forall j, t | 0 <= j < |files| && 0 <= t < SLOTS && (j != i || t != NDIRECT + 1 + e)
      ensures Slot(blocks', files[j], t) == Slot(blocks, files[j], t)
    {
      if t > NDIRECT {
        if j == i {
          PutWordAt(blocks[ind], e, b, t - NDIRECT - 1);
        } else {
          assert SlotOwned(blocks, files, owner, j, NDIRECT)
                 && Slot(blocks, files[j], NDIRECT) == files[j].addrs[NDIRECT];
        }
      }
    }
    PutWordAt(blocks[ind], e, b, e);
    LinkSlot(sb, blocks, blocks', files, files, owner, i, NDIRECT + 1 + e, b);
  }

  /** Writing the data of a block that a data slot holds changes no slot. */
  lemma DataWriteKeepsLinks(sb: Superblock, blocks: seq<Block>, files: seq<File>, owner: map<nat, Owner>, a: nat,
                            data: Block)
    requires Links(sb, blocks, files, owner) && a < |blocks| && a in owner && owner[a].slot != NDIRECT
    ensures var blocks' := blocks[a := data];
            && Links(sb, blocks', files, owner)
            && forall i, s | 0 <= i < |files| && 0 <= s < SLOTS ::
                 Slot(blocks', files[i], s) == Slot(blocks, files[i], s)
  {
    var blocks' := blocks[a := data];
    forall i, s | 0 <= i < |files| && 0 <= s < SLOTS
      ensures Slot(blocks', files[i], s) == Slot(blocks, files[i], s) && SlotOwned(blocks', files, owner, i, s)
    {
      assert SlotOwned(blocks, files, owner, i, NDIRECT) && SlotOwned(blocks, files, owner, i, s);
      assert Slot(blocks, files[i], NDIRECT) == files[i].addrs[NDIRECT];
    }
    forall b | b in owner
      ensures OwnerHolds(sb, blocks', files, owner, b)
    {
      assert OwnerHolds(sb, blocks, files, owner, b);
    }
  }

  /** The blocks of one inode. */
  ghost function BlocksOf(owner: map<nat, Owner>, i: nat): (r: set<nat>) {
    set b | b in owner && owner[b].inum == i
  }

  /** Emptying one inode leaves the others with all their blocks. */
  lemma UnlinkFile(sb: Superblock, blocks: seq<Block>, files: seq<File>, owner: map<nat, Owner>, i: nat)
    requires Links(sb, blocks, files, owner) && i < |files| && 0 < |blocks|
    ensures Links(sb, blocks, files[i := EmptyFile()], owner - BlocksOf(owner, i))
  {
    var files', owner' := files[i := EmptyFile()], owner - BlocksOf(owner, i);
    forall j, t | 0 <= j < |files'| && 0 <= t < SLOTS
      ensures SlotOwned(blocks, files', owner', j, t)
    {
      assert SlotOwned(blocks, files, owner, j, t);
    }
    forall b | b in owner'
      ensures OwnerHolds(sb, blocks, files', owner', b)
    {
      assert OwnerHolds(sb, blocks, files, owner, b);
    }
  }

  /** Every block mapped by a file is still mapped there and has the same data: nothing a reader can see has changed. */
  ghost predicate Extends(blocks: seq<Block>, files: seq<File>, blocks': seq<Block>, files': seq<File>) {
    && FilesOk(blocks, files) && FilesOk(blocks', files') && |files'| == |files| && |blocks'| == |blocks|
    && (forall i | 0 <= i < |files| :: files'[i].size == files[i].size)
    && (forall i, bn | 0 <= i < |files| && 0 <= bn < MAXFILE :: KeepsBlock(blocks, files[i], blocks', files'[i], bn))
  }

  predicate KeepsBlock(blocks: seq<Block>, f: File, blocks': seq<Block>, f': File, bn: nat)
    requires FileOk(blocks, f) && FileOk(blocks', f') && bn < MAXFILE && |blocks'| == |blocks|
  {
    var b := Slot(blocks, f, DataSlot(bn));
    b != 0 ==> Slot(blocks', f', DataSlot(bn)) == b && b < |blocks| && blocks'[b] == blocks[b]
  }

  lemma ExtendsTrans(b0: seq<Block>, f0: seq<File>, b1: seq<Block>, f1: seq<File>, b2: seq<Block>, f2: seq<File>)
    requires Extends(b0, f0, b1, f1) && Extends(b1, f1, b2, f2)
    ensures Extends(b0, f0, b2, f2)
  {
    forall i, bn | 0 <= i < |f0| && 0 <= bn < MAXFILE
      ensures KeepsBlock(b0, f0[i], b2, f2[i], bn)
    {
      assert KeepsBlock(b0, f0[i], b1, f1[i], bn) && KeepsBlock(b1, f1[i], b2, f2[i], bn);
    }
  }

  lemma ExtendsByte(blocks: seq<Block>, files: seq<File>, blocks': seq<Block>, files': seq<File>, i: nat, p: nat)
    requires Extends(blocks, files, blocks', files') && i < |files| && p < MAXFILE * BSIZE
    requires Slot(blocks, files[i], DataSlot(p / BSIZE)) != 0
    ensures Slot(blocks', files'[i], DataSlot(p / BSIZE)) == Slot(blocks, files[i], DataSlot(p / BSIZE))
    ensures ByteOf(blocks', files'[i], p) == ByteOf(blocks, files[i], p)
  {
    assert KeepsBlock(blocks, files[i], blocks', files'[i], p / BSIZE);
  }

  lemma ExtendsContents(blocks: seq<Block>, files: seq<File>, blocks': seq<Block>, files': seq<File>, i: nat)
    requires Extends(blocks, files, blocks', files') && i < |files| && NoHoles(blocks, files[i])
    ensures NoHoles(blocks', files'[i]) && Contents(blocks', files'[i]) == Contents(blocks, files[i])
  {
    forall bn | 0 <= bn < MAXFILE && bn * BSIZE < files'[i].size
      ensures Slot(blocks', files'[i], DataSlot(bn)) != 0
    {
      assert KeepsBlock(blocks, files[i], blocks', files'[i], bn);
    }
    forall p | 0 <= p < files[i].size
      ensures ByteOf(blocks', files'[i], p) == ByteOf(blocks, files[i], p)
    {
      ExtendsByte(blocks, files, blocks', files', i, p);
    }
    assert Contents(blocks', files'[i]) == Contents(blocks, files[i]);
  }

  /** Changing only blocks that no slot holds extends. */
  lemma FrameExtends(sb: Superblock, blocks: seq<Block>, blocks': seq<Block>, files: seq<File>, owner: map<nat, Owner>)
    requires Links(sb, blocks, files, owner) && |blocks'| == |blocks| && sb.size <= |blocks|
    requires forall k | k in owner && k < |blocks| :: blocks'[k] == blocks[k]
    ensures Links(sb, blocks', files, owner) && Extends(blocks, files, blocks', files)
  {
    LinksFrame(sb, blocks, blocks', files, owner);
    forall i, bn | 0 <= i < |files| && 0 <= bn < MAXFILE
      ensures KeepsBlock(blocks, files[i], blocks', files[i], bn)
    {
      assert SlotOwned(blocks, files, owner, i, DataSlot(bn));
      var b := Slot(blocks, files[i], DataSlot(bn));
      if b != 0 {
        assert OwnerHolds(sb, blocks, files, owner, b);
      }
    }
  }

  /** Filling one empty slot extends, if the only block that changes is an indirect block. */
  lemma LinkExtends(sb: Superblock, blocks: seq<Block>, blocks': seq<Block>, files: seq<File>, files': seq<File>,
                    owner: map<nat, Owner>, i: nat, s: nat)
    requires Links(sb, blocks, files, owner) && FilesOk(blocks', files') && |files'| == |files| && |blocks'| == |blocks|
    requires sb.size <= |blocks| && i < |files| && s < SLOTS && Slot(blocks, files[i], s) == 0
    requires OtherSlotsSame(blocks, blocks', files, files', i, s)
    requires forall j | 0 <= j < |files| :: files'[j].size == files[j].size
    requires forall k | k in owner && k < |blocks| && owner[k].slot != NDIRECT :: blocks'[k] == blocks[k]
    ensures Extends(blocks, files, blocks', files')
  {
    forall j, bn | 0 <= j < |files| && 0 <= bn < MAXFILE
      ensures KeepsBlock(blocks, files[j], blocks', files'[j], bn)
    {
      var t := DataSlot(bn);
      assert SlotOwned(blocks, files, owner, j, t);
      var b := Slot(blocks, files[j], t);
      if b != 0 {
        assert OwnerHolds(sb, blocks, files, owner, b);
        assert Slot(blocks', files'[j], t) == b;
      }
    }
  }

  lemma BitsFrame(sb: Superblock, blocks: seq<Block>, blocks': seq<Block>, inuse: set<nat>)
    requires Bits(sb, blocks, inuse) && |blocks'| == |blocks|
    requires forall k | 0 <= k < |blocks| && sb.IsBitmapBlock(k) :: blocks'[k] == blocks[k]
    ensures Bits(sb, blocks', inuse)
  {
    forall b | 0 <= b < sb.size
      ensures Used(sb, blocks', b) == Used(sb, blocks, b)
    {
      UsedElsewhere(sb, blocks, blocks', b);
    }
  }

  /** Setting or clearing the bit of a data block. */
  lemma MarkBit(sb: Superblock, blocks: seq<Block>, inuse: set<nat>, b: nat, v: bool)
    requires Bits(sb, blocks, inuse) && sb.IsData(b)
    ensures var k := sb.BBlock(b);
            && sb.IsBitmapBlock(k) && k < |blocks|
            && Bits(sb, blocks[k := PutBit(blocks[k], b % BPB, v)], if v then inuse + {b} else inuse - {b})
  {
    var k := sb.BBlock(b);
    UsedAfterPutBit(sb, blocks, b, v, b);
    var blocks', inuse' := blocks[k := PutBit(blocks[k], b % BPB, v)], if v then inuse + {b} else inuse - {b};
    forall x | 0 <= x < sb.size
      ensures Used(sb, blocks', x) <==> x < sb.DataStart() || x in inuse'
    {
      UsedAfterPutBit(sb, blocks, b, v, x);
    }
  }

  lemma ExtendsSelf(sb: Superblock, blocks: seq<Block>, files: seq<File>, owner: map<nat, Owner>)
    requires Links(sb, blocks, files, owner) && sb.size <= |blocks|
    ensures Extends(blocks, files, blocks, files)
  {
    FrameExtends(sb, blocks, blocks, files, owner);
  }

  /** A block with some of its bytes overwritten, from offset o on. */
  function Splice(b: Block, o: nat, data: seq<byte>): (r: Block)
    requires o + |data| <= BSIZE
    ensures forall q | 0 <= q < BSIZE :: r.bytes[q] == if o <= q < o + |data| then data[q - o] else b.bytes[q]
  {
    RawBlock(b.bytes[..o] + data + b.bytes[o + |data|..])
  }

  /** The content after writing data at offset off: exactly [off, off + |data|) is replaced, and the file grows if need
      be. */
  function Overwritten(c: seq<byte>, off: nat, data: seq<byte>): (r: seq<byte>)
    requires off <= |c|
  {
    c[..off] + data + if off + |data| < |c| then c[off + |data|..] else []
  }

  /** Writing part of one mapped block changes just those bytes of that file. */
  lemma ChunkLinks(sb: Superblock, blocks: seq<Block>, files: seq<File>, owner: map<nat, Owner>, i: nat, off: nat,
                   data: seq<byte>, a: nat)
    requires Links(sb, blocks, files, owner) && sb.size <= |blocks| && i < |files|
    requires off % BSIZE + |data| <= BSIZE && off < MAXFILE * BSIZE
             && a == Slot(blocks, files[i], DataSlot(off / BSIZE)) != 0
    ensures a < |blocks| && sb.IsData(a)
    ensures var blocks' := blocks[a := Splice(blocks[a], off % BSIZE, data)];
            && Links(sb, blocks', files, owner)
            && (forall j, s | 0 <= j < |files| && 0 <= s < SLOTS ::
                  Slot(blocks', files[j], s) == Slot(blocks, files[j], s))
  {
    assert SlotOwned(blocks, files, owner, i, DataSlot(off / BSIZE));
    assert OwnerHolds(sb, blocks, files, owner, a);
    DataWriteKeepsLinks(sb, blocks, files, owner, a, Splice(blocks[a], off % BSIZE, data));
  }

  lemma ChunkByte(sb: Superblock, blocks: seq<Block>, files: seq<File>, owner: map<nat, Owner>, i: nat, off: nat,
                  data: seq<byte>, a: nat, j: nat, p: nat)
    requires Links(sb, blocks, files, owner) && sb.size <= |blocks| && i < |files| && j < |files| && p < MAXFILE * BSIZE
    requires off % BSIZE + |data| <= BSIZE && off < MAXFILE * BSIZE
             && a == Slot(blocks, files[i], DataSlot(off / BSIZE)) != 0
    requires Slot(blocks, files[j], DataSlot(p / BSIZE)) != 0
    ensures a < |blocks|
    ensures var blocks' := blocks[a := Splice(blocks[a], off % BSIZE, data)];
            && FileOk(blocks', files[j])
            && ByteOf(blocks', files[j], p) == if j == i && off <= p < off + |data| then data[p - off]
                                               else ByteOf(blocks, files[j], p)
  {
    ChunkLinks(sb, blocks, files, owner, i, off, data, a);
    var s, t := DataSlot(p / BSIZE), DataSlot(off / BSIZE);
    assert SlotOwned(blocks, files, owner, j, s) && SlotOwned(blocks, files, owner, i, t);
    var blocks' := blocks[a := Splice(blocks[a], off % BSIZE, data)];
    assert Slot(blocks', files[j], s) == Slot(blocks, files[j], s);
    SameBlock(off, p, |data|);
  }

  lemma SameBlock(off: nat, p: nat, m: nat)
    requires off % BSIZE + m <= BSIZE
    ensures off <= p < off + m <==> p / BSIZE == off / BSIZE && off % BSIZE <= p % BSIZE < off % BSIZE + m
    ensures off <= p < off + m ==> p % BSIZE - off % BSIZE == p - off
  {
  }

  /** Position p of a file that is being written: mapped, and new if the write has reached it, else as before. */
  ghost predicate ByteWritten(blocks0: seq<Block>, f0: File, blocks: seq<Block>, f: File, off: nat, src: seq<byte>,
                              tot: nat, p: nat)
    requires FileOk(blocks0, f0) && FileOk(blocks, f) && p < MAXFILE * BSIZE && tot <= |src|
  {
    && Slot(blocks, f, DataSlot(p / BSIZE)) != 0
    && ByteOf(blocks, f, p) == if off <= p < off + tot then src[p - off] else ByteOf(blocks0, f0, p)
  }

  /** After tot bytes of a write of src at off to inode i: those bytes are in place, and no other file has changed. */
  ghost predicate Progress(blocks0: seq<Block>, files0: seq<File>, blocks: seq<Block>, files: seq<File>, i: nat,
                           off: nat, src: seq<byte>, tot: nat) {
    && FilesOk(blocks0, files0) && FilesOk(blocks, files) && i < |files| == |files0|
    && tot <= |src| && off <= files0[i].size == files[i].size && off + tot <= MAXFILE * BSIZE
    && (forall j | 0 <= j < |files| && j != i ::
          files[j] == files0[j] && Contents(blocks, files[j]) == Contents(blocks0, files0[j]))
    && (forall p | 0 <= p < MAXFILE * BSIZE && (p < files0[i].size || p < off + tot) ::
          ByteWritten(blocks0, files0[i], blocks, files[i], off, src, tot, p))
  }

  lemma ProgressStart(blocks: seq<Block>, files: seq<File>, i: nat, off: nat, src: seq<byte>)
    requires FilesOk(blocks, files) && i < |files| && off <= files[i].size && NoHoles(blocks, files[i])
    ensures Progress(blocks, files, blocks, files, i, off, src, 0)
  {
    forall p | 0 <= p < MAXFILE * BSIZE && p < files[i].size
      ensures ByteWritten(blocks, files[i], blocks, files[i], off, src, 0, p)
    {
      assert p / BSIZE * BSIZE <= p;
      assert Slot(blocks, files[i], DataSlot(p / BSIZE)) != 0;
    }
  }

  lemma ProgressExtends(b0: seq<Block>, f0: seq<File>, b1: seq<Block>, f1: seq<File>, b2: seq<Block>, f2: seq<File>,
                        i: nat, off: nat, src: seq<byte>, tot: nat)
    requires Progress(b0, f0, b1, f1, i, off, src, tot) && Extends(b1, f1, b2, f2)
    requires forall j | 0 <= j < |f1| && j != i :: f2[j] == f1[j] && NoHoles(b1, f1[j])
    ensures Progress(b0, f0, b2, f2, i, off, src, tot)
  {
    forall j | 0 <= j < |f1| && j != i
      ensures Contents(b2, f2[j]) == Contents(b0, f0[j])
    {
      ExtendsContents(b1, f1, b2, f2, j);
    }
    forall p | 0 <= p < MAXFILE * BSIZE && (p < f0[i].size || p < off + tot)
      ensures ByteWritten(b0, f0[i], b2, f2[i], off, src, tot, p)
    {
      assert ByteWritten(b0, f0[i], b1, f1[i], off, src, tot, p);
      ExtendsByte(b1, f1, b2, f2, i, p);
    }
  }

  lemma ProgressChunk(sb: Superblock, b0: seq<Block>, f0: seq<File>, blocks: seq<Block>, files: seq<File>,
                      owner: map<nat, Owner>, i: nat, off: nat, src: seq<byte>, tot: nat, m: nat, a: nat)
    requires Links(sb, blocks, files, owner) && sb.size <= |blocks| && Progress(b0, f0, blocks, files, i, off, src, tot)
    requires forall j | 0 <= j < |files| && j != i :: NoHoles(blocks, files[j])
    requires 0 < m && tot + m <= |src| && off + tot + m <= MAXFILE * BSIZE && (off + tot) % BSIZE + m <= BSIZE
    requires a == Slot(blocks, files[i], DataSlot((off + tot) / BSIZE)) != 0
    ensures a < |blocks|
    ensures Progress(b0, f0, blocks[a := Splice(blocks[a], (off + tot) % BSIZE, src[tot..tot + m])], files, i, off,
                     src, tot + m)
  {
    var cur, data := off + tot, src[tot..tot + m];
    ChunkLinks(sb, blocks, files, owner, i, cur, data, a);
    var blocks' := blocks[a := Splice(blocks[a], cur % BSIZE, data)];
    forall j | 0 <= j < |files| && j != i
      ensures Contents(blocks', files[j]) == Contents(b0, f0[j])
    {
      forall p | 0 <= p < files[j].size
        ensures ByteOf(blocks', files[j], p) == ByteOf(blocks, files[j], p)
      {
        assert p / BSIZE * BSIZE <= p;
        ChunkByte(sb, blocks, files, owner, i, cur, data, a, j, p);
      }
      assert Contents(blocks', files[j]) == Contents(blocks, files[j]);
    }
    var t := tot + m;
    forall p | 0 <= p < MAXFILE * BSIZE && (p < f0[i].size || p < off + t)
      ensures ByteWritten(b0, f0[i], blocks', files[i], off, src, t, p)
    {
      ProgressByte(sb, b0, f0, blocks, files, owner, i, off, src, tot, m, a, p);
    }
  }

  lemma ProgressByte(sb: Superblock, b0: seq<Block>, f0: seq<File>, blocks: seq<Block>, files: seq<File>,
                     owner: map<nat, Owner>, i: nat, off: nat, src: seq<byte>, tot: nat, m: nat, a: nat, p: nat)
    requires Links(sb, blocks, files, owner) && sb.size <= |blocks| && Progress(b0, f0, blocks, files, i, off, src, tot)
    requires 0 < m && tot + m <= |src| && off + tot + m <= MAXFILE * BSIZE && (off + tot) % BSIZE + m <= BSIZE
    requires a == Slot(blocks, files[i], DataSlot((off + tot) / BSIZE)) != 0
    requires p < MAXFILE * BSIZE && (p < f0[i].size || p < off + (tot + m))
    ensures a < |blocks|
    ensures var blocks' := blocks[a := Splice(blocks[a], (off + tot) % BSIZE, src[tot..tot + m])];
            FileOk(blocks', files[i]) && ByteWritten(b0, f0[i], blocks', files[i], off, src, tot + m, p)
  {
    hide Links, Contents;
    var cur, data := off + tot, src[tot..tot + m];
    ChunkLinks(sb, blocks, files, owner, i, cur, data, a);
    var blocks' := blocks[a := Splice(blocks[a], cur % BSIZE, data)];
    SameBlock(cur, p, m);
    if p < f0[i].size || p < off + tot {
      assert ByteWritten(b0, f0[i], blocks, files[i], off, src, tot, p);
    } else {
      assert p / BSIZE == cur / BSIZE;
    }
    assert Slot(blocks', files[i], DataSlot(p / BSIZE)) == Slot(blocks, files[i], DataSlot(p / BSIZE));
    ChunkByte(sb, blocks, files, owner, i, cur, data, a, i, p);
  }

  /** The file when the write stops at offset end: the size is raised if need be. */
  function Raised(f: File, end: nat): (r: File) {
    f.(size := if end > f.size then end else f.size)
  }

  lemma RaisedMapped(b0: seq<Block>, f0: seq<File>, blocks: seq<Block>, files: seq<File>, i: nat, off: nat,
                     src: seq<byte>, tot: nat)
    requires Progress(b0, f0, blocks, files, i, off, src, tot)
    ensures FileOk(blocks, Raised(files[i], off + tot)) && NoHoles(blocks, Raised(files[i], off + tot))
  {
    hide ByteOf, Contents;
    var f := Raised(files[i], off + tot);
    forall bn | 0 <= bn < MAXFILE && bn * BSIZE < f.size
      ensures Slot(blocks, f, DataSlot(bn)) != 0
    {
      assert ByteWritten(b0, f0[i], blocks, files[i], off, src, tot, bn * BSIZE);
      assert bn * BSIZE / BSIZE == bn;
    }
  }

  lemma RaisedByte(b0: seq<Block>, f0: seq<File>, blocks: seq<Block>, files: seq<File>, i: nat, off: nat,
                   src: seq<byte>, tot: nat, p: nat)
    requires Progress(b0, f0, blocks, files, i, off, src, tot) && p < Raised(files[i], off + tot).size
    ensures FileOk(blocks, Raised(files[i], off + tot)) && p < MAXFILE * BSIZE
    ensures ByteOf(blocks, Raised(files[i], off + tot), p)
         == if off <= p < off + tot then src[p - off] else ByteOf(b0, f0[i], p)
  {
    hide Contents;
    assert ByteWritten(b0, f0[i], blocks, files[i], off, src, tot, p);
  }

  /** When the write stops after tot bytes and the size is raised if need be, the content is the overwritten one. */
  lemma ProgressEnd(b0: seq<Block>, f0: seq<File>, blocks: seq<Block>, files: seq<File>, i: nat, off: nat,
                    src: seq<byte>, tot: nat)
    requires Progress(b0, f0, blocks, files, i, off, src, tot)
    ensures var f := files[i].(size := if off + tot > files[i].size then off + tot else files[i].size);
            && FileOk(blocks, f) && NoHoles(blocks, f)
            && Contents(blocks, f) == Overwritten(Contents(b0, f0[i]), off, src[..tot])
  {
    hide ByteOf, Slot, NoHoles, ByteWritten;
    var f := Raised(files[i], off + tot);
    RaisedMapped(b0, f0, blocks, files, i, off, src, tot);
    var c, want := Contents(blocks, f), Overwritten(Contents(b0, f0[i]), off, src[..tot]);
    forall p | 0 <= p < f.size
      ensures c[p] == want[p]
    {
      RaisedByte(b0, f0, blocks, files, i, off, src, tot, p);
    }
    assert c == want;
  }

  /** A chunk of a mapped block is that slice of the content. */
  lemma ChunkRead(sb: Superblock, blocks: seq<Block>, files: seq<File>, owner: map<nat, Owner>, i: nat, cur: nat,
                  m: nat)
    requires Links(sb, blocks, files, owner) && sb.size <= |blocks| && i < |files| && NoHoles(blocks, files[i])
    requires 0 < m && cur % BSIZE + m <= BSIZE && cur + m <= files[i].size
    ensures var a := Slot(blocks, files[i], DataSlot(cur / BSIZE));
            && 0 < a < |blocks|
            && blocks[a].bytes[cur % BSIZE..cur % BSIZE + m] == Contents(blocks, files[i])[cur..cur + m]
  {
    var a := Slot(blocks, files[i], DataSlot(cur / BSIZE));
    assert cur / BSIZE * BSIZE <= cur;
    assert SlotOwned(blocks, files, owner, i, DataSlot(cur / BSIZE)) && OwnerHolds(sb, blocks, files, owner, a);
    var got, want := blocks[a].bytes[cur % BSIZE..cur % BSIZE + m], Contents(blocks, files[i])[cur..cur + m];
    forall q | 0 <= q < m
      ensures got[q] == want[q]
    {
      SameBlock(cur, cur + q, m);
      assert ByteOf(blocks, files[i], cur + q) == blocks[a].bytes[cur % BSIZE + q];
    }
  }

  /** The blocks that slots lo to hi - 1 of inode i hold. */
  ghost function OwnedIn(owner: map<nat, Owner>, i: nat, lo: nat, hi: nat): (r: set<nat>) {
    set b | b in owner && owner[b].inum == i && lo <= owner[b].slot < hi
  }

  /** One more slot adds the block it holds, if any, and that block is not held by the slots before. */
  lemma OwnedInStep(sb: Superblock, blocks: seq<Block>, files: seq<File>, owner: map<nat, Owner>, i: nat, lo: nat,
                    s: nat)
    requires Links(sb, blocks, files, owner) && i < |files| && lo <= s < SLOTS
    ensures var b := Slot(blocks, files[i], s);
            && OwnedIn(owner, i, lo, s + 1) == OwnedIn(owner, i, lo, s) + (if b == 0 then {} else {b})
            && (b != 0 ==> b in owner && owner[b] == Owner(i, s) && sb.IsData(b))
  {
    assert SlotOwned(blocks, files, owner, i, s);
    var b := Slot(blocks, files[i], s);
    forall x | x in OwnedIn(owner, i, lo, s + 1)
      ensures x in OwnedIn(owner, i, lo, s) || x == b != 0
    {
      assert OwnerHolds(sb, blocks, files, owner, x);
    }
    if b != 0 {
      assert OwnerHolds(sb, blocks, files, owner, b);
    }
  }
}
