/** The block allocator and the inode layer of kernel/fs.c. Reading a block means what bread returns, the
    latest logged contents (module RedoLog), and writing one means changing the buffer and calling log_write. */
module FileSystem {
  import opened Blocks
  import opened FsLayout
  import opened FsSpec

  /** An entry of the inode table. */
  datatype Inode = Inode(inum: nat, refs: nat, valid: bool, kind: nat, major: nat, minor: nat, nlink: nat, size: nat,
                         addrs: seq<nat>) {
    function AsFile(): File {
      File(size, addrs)
    }

    predicate MetadataFits() {
      kind < 0x1_0000 && major < 0x1_0000 && minor < 0x1_0000 && nlink < 0x1_0000
    }

    /** The fields have the width of their on-disk counterparts. */
    predicate Fits() {
      && MetadataFits() && size < WORDLIMIT
      && |addrs| == NDIRECT + 1 && forall s | 0 <= s < |addrs| :: addrs[s] < WORDLIMIT
    }

    /** What iupdate stores. */
    function AsDinode(): (d: Dinode)
      requires Fits()
    {
      Dinode(kind, major, minor, nlink, size, addrs)
    }
  }

  function DiskFile(sb: Superblock, blocks: seq<Block>, i: nat): (f: File)
    requires sb.Fits(blocks) && i < sb.ninodes
  {
    var d := DiskInode(sb, blocks, i);
    File(d.size, d.addrs)
  }

  /** The disk has the current version of every inode but possibly the open one, and free inodes are empty. */
  ghost predicate Synced(sb: Superblock, blocks: seq<Block>, files: seq<File>, open: int)
    requires sb.Fits(blocks)
  {
    && |files| == sb.ninodes
    && forall i | 0 <= i < sb.ninodes && i != open ::
         files[i] == DiskFile(sb, blocks, i) && (DiskInode(sb, blocks, i).kind == 0 ==> files[i] == EmptyFile())
  }

  lemma SyncedFrame(sb: Superblock, blocks: seq<Block>, blocks': seq<Block>, files: seq<File>, open: int)
    requires sb.Fits(blocks) && |blocks'| == |blocks| && Synced(sb, blocks, files, open)
    requires forall k | 0 <= k < |blocks| && sb.IsInodeBlock(k) :: blocks'[k] == blocks[k]
    ensures Synced(sb, blocks', files, open)
    ensures forall i | 0 <= i < sb.ninodes :: DiskInode(sb, blocks', i) == DiskInode(sb, blocks, i)
  {
    forall i | 0 <= i < sb.ninodes
      ensures DiskInode(sb, blocks', i) == DiskInode(sb, blocks, i)
    {
      InodeElsewhere(sb, blocks, blocks', i);
    }
  }

  /** The entries in use name different inodes, and a valid one is a copy of its inode. */
  ghost predicate TableOk(sb: Superblock, blocks: seq<Block>, files: seq<File>, itable: seq<Inode>, open: int)
    requires sb.Fits(blocks) && |files| == sb.ninodes
  {
    && (forall e | 0 <= e < |itable| && itable[e].refs > 0 ::
          && itable[e].inum < sb.ninodes
          && (itable[e].valid ==> itable[e].AsFile() == files[itable[e].inum] && itable[e].MetadataFits())
          && (itable[e].valid && itable[e].inum != open
              ==> itable[e].kind != 0 && SameMetadata(itable[e], DiskInode(sb, blocks, itable[e].inum))))
    && (forall d, e | 0 <= d < e < |itable| && itable[d].refs > 0 && itable[e].refs > 0 ::
          itable[d].inum != itable[e].inum)
  }

  predicate SameMetadata(ip: Inode, d: Dinode) {
    ip.kind == d.kind && ip.major == d.major && ip.minor == d.minor && ip.nlink == d.nlink
  }

  ghost predicate AllMapped(blocks: seq<Block>, files: seq<File>)
    requires FilesOk(blocks, files)
  {
    forall i | 0 <= i < |files| :: NoHoles(blocks, files[i])
  }

  lemma AllMappedExtends(blocks: seq<Block>, files: seq<File>, blocks': seq<Block>, files': seq<File>)
    requires Extends(blocks, files, blocks', files') && AllMapped(blocks, files)
    ensures AllMapped(blocks', files')
    ensures forall i | 0 <= i < |files| :: Contents(blocks', files'[i]) == Contents(blocks, files[i])
  {
    forall i | 0 <= i < |files|
      ensures NoHoles(blocks', files'[i]) && Contents(blocks', files'[i]) == Contents(blocks, files[i])
    {
      ExtendsContents(blocks, files, blocks', files', i);
    }
  }

  /** The whole invariant: bitmap, slots, on-disk inodes, inode table, and no holes. */
  ghost predicate Consistent(sb: Superblock, blocks: seq<Block>, files: seq<File>, owner: map<nat, Owner>,
                             inuse: set<nat>, itable: seq<Inode>, open: int, extra: set<nat>)
  {
    && Bits(sb, blocks, inuse) && Links(sb, blocks, files, owner)
    && inuse == owner.Keys + extra && extra !! owner.Keys
    && Synced(sb, blocks, files, open) && TableOk(sb, blocks, files, itable, open)
    && AllMapped(blocks, files)
  }

  /** What the disk alone must have, for the system to start from: the same without an inode table. */
  ghost predicate OnDisk(sb: Superblock, disk: seq<Block>, files: seq<File>, owner: map<nat, Owner>) {
    && Bits(sb, disk, owner.Keys) && Links(sb, disk, files, owner)
    && Synced(sb, disk, files, -1) && AllMapped(disk, files)
  }

  /** Between operations the blocks could be a disk to start from. */
  lemma CouldStart(sb: Superblock, blocks: seq<Block>, files: seq<File>, owner: map<nat, Owner>, inuse: set<nat>,
                   itable: seq<Inode>)
    requires Consistent(sb, blocks, files, owner, inuse, itable, -1, {})
    ensures OnDisk(sb, blocks, files, owner)
  {
    assert inuse == owner.Keys;
  }

  lemma Basics(sb: Superblock, blocks: seq<Block>, files: seq<File>, owner: map<nat, Owner>, inuse: set<nat>,
               itable: seq<Inode>, open: int, extra: set<nat>)
    requires Consistent(sb, blocks, files, owner, inuse, itable, open, extra)
    ensures sb.Fits(blocks) && |files| == sb.ninodes && FilesOk(blocks, files) && sb.size <= |blocks|
            && AllMapped(blocks, files)
  {
  }

  lemma EntryBasics(sb: Superblock, blocks: seq<Block>, files: seq<File>, owner: map<nat, Owner>, inuse: set<nat>,
                    itable: seq<Inode>, open: int, extra: set<nat>, ip: nat)
    requires Consistent(sb, blocks, files, owner, inuse, itable, open, extra)
    requires ip < |itable| && itable[ip].refs > 0 && itable[ip].valid
    ensures itable[ip].inum < |files| && itable[ip].AsFile() == files[itable[ip].inum]
            && FileOk(blocks, files[itable[ip].inum])
    ensures NoHoles(blocks, files[itable[ip].inum]) && FilesOk(blocks, files)
            && (itable[ip].inum != open ==> itable[ip].kind != 0)
  {
    hide Bits, Links;
    Basics(sb, blocks, files, owner, inuse, itable, open, extra);
    assert FileOk(blocks, files[itable[ip].inum]) && NoHoles(blocks, files[itable[ip].inum]);
  }

  /** Writing a data block that is owned, if slots and files survive it, keeps everything else. */
  lemma DataBlockWritten(sb: Superblock, blocks: seq<Block>, files: seq<File>, owner: map<nat, Owner>, inuse: set<nat>,
                         itable: seq<Inode>, open: int, extra: set<nat>, k: nat, data: Block)
    requires Consistent(sb, blocks, files, owner, inuse, itable, open, extra) && sb.IsData(k)
    ensures var blocks' := blocks[k := data];
            Bits(sb, blocks', inuse) && Synced(sb, blocks', files, open) && TableOk(sb, blocks', files, itable, open)
  {
    var blocks' := blocks[k := data];
    BitsFrame(sb, blocks, blocks', inuse);
    SyncedFrame(sb, blocks, blocks', files, open);
  }

  lemma EntryWritten(sb: Superblock, blocks: seq<Block>, files: seq<File>, owner: map<nat, Owner>, inuse: set<nat>,
                     itable: seq<Inode>, i: nat, e: nat, b: nat)
    requires Consistent(sb, blocks, files, owner, inuse, itable, i, {b}) && i < |files| && e < NINDIRECT
    requires files[i].addrs[NDIRECT] != 0 && WordAt(blocks[files[i].addrs[NDIRECT]], e) == 0
    ensures var ind := files[i].addrs[NDIRECT];
            && b < WORDLIMIT
            && var blocks' := blocks[ind := PutWord(blocks[ind], e, b)];
            && Consistent(sb, blocks', files, owner[b := Owner(i, NDIRECT + 1 + e)], inuse, itable, i, {})
            && Extends(blocks, files, blocks', files) && Slot(blocks', files[i], NDIRECT + 1 + e) == b
  {
    var ind := files[i].addrs[NDIRECT];
    assert SlotOwned(blocks, files, owner, i, NDIRECT) && Slot(blocks, files[i], NDIRECT) == ind;
    assert OwnerHolds(sb, blocks, files, owner, ind);
    assert b in inuse;
    LinkEntry(sb, blocks, files, owner, i, e, b);
    PutWordAt(blocks[ind], e, b, e);
    var blocks' := blocks[ind := PutWord(blocks[ind], e, b)];
    LinkExtends(sb, blocks, blocks', files, files, owner, i, NDIRECT + 1 + e);
    DataBlockWritten(sb, blocks, files, owner, inuse, itable, i, {b}, ind, blocks'[ind]);
    AllMappedExtends(blocks, files, blocks', files);
  }

  /** What a successful balloc of block b does to the disk. */
  ghost predicate AllocStep(sb: Superblock, blocks: seq<Block>, blocks': seq<Block>, inuse: set<nat>, b: nat) {
    && sb.IsData(b) && b !in inuse && Bits(sb, blocks', inuse + {b})
    && |blocks'| == |blocks| && b < |blocks| && blocks'[b] == ZeroBlock()
    && forall k | 0 <= k < |blocks| && k != b && !sb.IsBitmapBlock(k) :: blocks'[k] == blocks[k]
  }

  /** balloc between two consistent states: nothing that any reader can see changes. */
  lemma Allocated(sb: Superblock, blocks: seq<Block>, blocks': seq<Block>, files: seq<File>, owner: map<nat, Owner>,
                  inuse: set<nat>, itable: seq<Inode>, open: int, b: nat)
    requires Consistent(sb, blocks, files, owner, inuse, itable, open, {}) && AllocStep(sb, blocks, blocks', inuse, b)
    ensures Consistent(sb, blocks', files, owner, inuse + {b}, itable, open, {b})
    ensures Extends(blocks, files, blocks', files)
    ensures forall k | k in owner && k < |blocks| :: blocks'[k] == blocks[k]
  {
    forall k | k in owner && k < |blocks|
      ensures blocks'[k] == blocks[k]
    {
      assert OwnerHolds(sb, blocks, files, owner, k);
    }
    FrameExtends(sb, blocks, blocks', files, owner);
    SyncedFrame(sb, blocks, blocks', files, open);
    AllMappedExtends(blocks, files, blocks', files);
  }

  /** A block that balloc has just returned goes into entry s of the inode. */
  lemma AddrSet(sb: Superblock, blocks: seq<Block>, files: seq<File>, owner: map<nat, Owner>, inuse: set<nat>,
                itable: seq<Inode>, ip: nat, s: nat, b: nat)
    requires ip < |itable| && itable[ip].refs > 0 && itable[ip].valid
    requires Consistent(sb, blocks, files, owner, inuse, itable, itable[ip].inum, {b})
    requires s <= NDIRECT && itable[ip].addrs[s] == 0 && b < |blocks| && blocks[b] == ZeroBlock()
    ensures var i := itable[ip].inum;
            var files' := files[i := SetAddr(files[i], s, b)];
            && Consistent(sb, blocks, files', owner[b := Owner(i, s)], inuse,
                          itable[ip := itable[ip].(addrs := itable[ip].addrs[s := b])], i, {})
            && Extends(blocks, files, blocks, files') && Slot(blocks, files'[i], s) == b
  {
    var i := itable[ip].inum;
    var files' := files[i := SetAddr(files[i], s, b)];
    assert b in inuse;
    LinkAddr(sb, blocks, files, owner, i, s, b);
    LinkExtends(sb, blocks, blocks, files, files', owner, i, s);
    AllMappedExtends(blocks, files, blocks, files');
  }

  /** balloc, then a[e] = b in the indirect block. */
  lemma EntryAllocated(sb: Superblock, blocks: seq<Block>, blocks': seq<Block>, files: seq<File>,
                       owner: map<nat, Owner>, inuse: set<nat>, itable: seq<Inode>, i: nat, e: nat, b: nat)
    requires Consistent(sb, blocks, files, owner, inuse, itable, i, {}) && AllocStep(sb, blocks, blocks', inuse, b)
    requires i < |files| && e < NINDIRECT && files[i].addrs[NDIRECT] != 0
             && WordAt(blocks[files[i].addrs[NDIRECT]], e) == 0
    ensures var ind := files[i].addrs[NDIRECT];
            && b < WORDLIMIT && sb.IsData(ind) && ind < |blocks'| && blocks'[ind] == blocks[ind]
            && var blocks'' := blocks'[ind := PutWord(blocks'[ind], e, b)];
            && Consistent(sb, blocks'', files, owner[b := Owner(i, NDIRECT + 1 + e)], inuse + {b}, itable, i, {})
            && Extends(blocks, files, blocks'', files) && Slot(blocks'', files[i], NDIRECT + 1 + e) == b
  {
    var ind := files[i].addrs[NDIRECT];
    assert SlotOwned(blocks, files, owner, i, NDIRECT) && Slot(blocks, files[i], NDIRECT) == ind;
    assert OwnerHolds(sb, blocks, files, owner, ind);
    Allocated(sb, blocks, blocks', files, owner, inuse, itable, i, b);
    EntryWritten(sb, blocks', files, owner, inuse + {b}, itable, i, e, b);
    ExtendsTrans(blocks, files, blocks', files, blocks'[ind := PutWord(blocks'[ind], e, b)], files);
  }

  lemma OpenFits(sb: Superblock, blocks: seq<Block>, files: seq<File>, owner: map<nat, Owner>, inuse: set<nat>,
                 itable: seq<Inode>, open: int, ip: nat)
    requires Consistent(sb, blocks, files, owner, inuse, itable, open, {})
    requires ip < |itable| && itable[ip].refs > 0 && itable[ip].valid
    ensures itable[ip].Fits()
  {
    var i := itable[ip].inum;
    assert FileOk(blocks, files[i]);
    forall s | 0 <= s < |itable[ip].addrs|
      ensures itable[ip].addrs[s] < WORDLIMIT
    {
      assert SlotOwned(blocks, files, owner, i, s) && Slot(blocks, files[i], s) == itable[ip].addrs[s];
      if itable[ip].addrs[s] != 0 {
        assert OwnerHolds(sb, blocks, files, owner, itable[ip].addrs[s]);
      }
    }
  }

  /** Storing one inode on the disk keeps the bitmap, the slots and all contents. */
  lemma InodePut(sb: Superblock, blocks: seq<Block>, files: seq<File>, owner: map<nat, Owner>, inuse: set<nat>, i: nat,
                 d: Dinode)
    requires Bits(sb, blocks, inuse) && Links(sb, blocks, files, owner) && AllMapped(blocks, files)
    requires i < sb.ninodes && d.Fits()
    ensures var k := sb.IBlock(i);
            && sb.IsManaged(k) && k < |blocks|
            && var blocks' := blocks[k := PutInode(blocks[k], i % IPB, d)];
            && Bits(sb, blocks', inuse) && Extends(blocks, files, blocks', files)
            && Links(sb, blocks', files, owner) && AllMapped(blocks', files)
            && forall j | 0 <= j < sb.ninodes ::
                 DiskInode(sb, blocks', j) == if j == i then d else DiskInode(sb, blocks, j)
  {
    hide AllMapped, PutInode, DiskInode;
    var k := sb.IBlock(i);
    InodeAfterPut(sb, blocks, i, d, i);
    var blocks' := blocks[k := PutInode(blocks[k], i % IPB, d)];
    forall b | b in owner && b < |blocks|
      ensures blocks'[b] == blocks[b]
    {
      assert OwnerHolds(sb, blocks, files, owner, b);
    }
    FrameExtends(sb, blocks, blocks', files, owner);
    BitsFrame(sb, blocks, blocks', inuse);
    AllMappedExtends(blocks, files, blocks', files);
    forall j | 0 <= j < sb.ninodes
      ensures DiskInode(sb, blocks', j) == if j == i then d else DiskInode(sb, blocks, j)
    {
      InodeAfterPut(sb, blocks, i, d, j);
    }
  }

  /** iupdate: the disk catches up with the open inode. */
  lemma InodeStored(sb: Superblock, blocks: seq<Block>, files: seq<File>, owner: map<nat, Owner>, inuse: set<nat>,
                    itable: seq<Inode>, ip: nat)
    requires ip < |itable| && itable[ip].refs > 0 && itable[ip].valid && itable[ip].Fits()
    requires Consistent(sb, blocks, files, owner, inuse, itable, itable[ip].inum, {})
    requires itable[ip].kind == 0 ==> itable[ip].AsFile() == EmptyFile()
    ensures var i := itable[ip].inum;
            var k := sb.IBlock(i);
            && k < |blocks|
            && var blocks' := blocks[k := PutInode(blocks[k], i % IPB, itable[ip].AsDinode())];
            && Consistent(sb, blocks', files, owner, inuse, itable, if itable[ip].kind == 0 then i else -1, {})
            && Synced(sb, blocks', files, -1)
            && Extends(blocks, files, blocks', files)
  {
    hide Bits, Links, AllMapped, Extends, PutInode, DiskInode;
    Basics(sb, blocks, files, owner, inuse, itable, itable[ip].inum, {});
    var i := itable[ip].inum;
    var k, d := sb.IBlock(i), itable[ip].AsDinode();
    InodePut(sb, blocks, files, owner, inuse, i, d);
    var blocks' := blocks[k := PutInode(blocks[k], i % IPB, d)];
    assert Synced(sb, blocks', files, -1);
    assert TableOk(sb, blocks', files, itable, if itable[ip].kind == 0 then i else -1);
  }

  /** One chunk of a write, in a block that bmap has just returned. */
  lemma ChunkWritten(sb: Superblock, blocks: seq<Block>, files: seq<File>, owner: map<nat, Owner>, inuse: set<nat>,
                     itable: seq<Inode>, open: int, i: nat, off: nat, data: seq<byte>, a: nat)
    requires Consistent(sb, blocks, files, owner, inuse, itable, open, {}) && i < |files|
    requires off % BSIZE + |data| <= BSIZE && off < MAXFILE * BSIZE
             && a == Slot(blocks, files[i], DataSlot(off / BSIZE)) != 0
    ensures a < |blocks|
    ensures Consistent(sb, blocks[a := Splice(blocks[a], off % BSIZE, data)], files, owner, inuse, itable, open, {})
  {
    ChunkLinks(sb, blocks, files, owner, i, off, data, a);
    DataBlockWritten(sb, blocks, files, owner, inuse, itable, open, {}, a, Splice(blocks[a], off % BSIZE, data));
    var blocks' := blocks[a := Splice(blocks[a], off % BSIZE, data)];
    forall j, bn | 0 <= j < |files| && 0 <= bn < MAXFILE && bn * BSIZE < files[j].size
      ensures Slot(blocks', files[j], DataSlot(bn)) != 0
    {
      assert NoHoles(blocks, files[j]);
      assert Slot(blocks', files[j], DataSlot(bn)) == Slot(blocks, files[j], DataSlot(bn));
    }
  }

  /** The blocks of a file from number bn on, as far as it goes, are not in logged, unless they were before. */
  ghost predicate NotLogged(blocks: seq<Block>, f: File, logged: set<nat>, before: set<nat>, bn: nat)
    requires FileOk(blocks, f)
  {
    forall b | bn <= b < MAXFILE && b * BSIZE < f.size ::
      Slot(blocks, f, DataSlot(b)) in logged ==> Slot(blocks, f, DataSlot(b)) in before
  }

  /** Logging block bn of a file, its indirect block and the bitmap logs none of its other blocks. */
  lemma OtherSlotNotLogged(sb: Superblock, blocks: seq<Block>, files: seq<File>, owner: map<nat, Owner>, i: nat,
                           bn: nat, b: nat)
    requires Links(sb, blocks, files, owner) && i < |files| && bn < MAXFILE && b < MAXFILE && b != bn
    requires Slot(blocks, files[i], DataSlot(b)) != 0
    ensures var x := Slot(blocks, files[i], DataSlot(b));
            && !sb.IsBitmapBlock(x) && x != Slot(blocks, files[i], DataSlot(bn)) && x != files[i].addrs[NDIRECT]
  {
    var x := Slot(blocks, files[i], DataSlot(b));
    assert SlotOwned(blocks, files, owner, i, DataSlot(b)) && SlotOwned(blocks, files, owner, i, DataSlot(bn));
    assert SlotOwned(blocks, files, owner, i, NDIRECT) && Slot(blocks, files[i], NDIRECT) == files[i].addrs[NDIRECT];
    assert OwnerHolds(sb, blocks, files, owner, x);
  }

  /** One turn of writei's loop, from (b0, f0) by bmap to b1 and then to blocks. */
  lemma StillNotLogged(sb: Superblock, b0: seq<Block>, f0: seq<File>, b1: seq<Block>, blocks: seq<Block>,
                       files: seq<File>, owner: map<nat, Owner>, i: nat, bn: nat, l0: set<nat>, l: set<nat>,
                       before: set<nat>)
    requires Links(sb, blocks, files, owner) && Extends(b0, f0, b1, files) && i < |files| && bn < MAXFILE
    requires forall s | 0 <= s < SLOTS :: Slot(blocks, files[i], s) == Slot(b1, files[i], s)
    requires NoHoles(b0, f0[i]) && NotLogged(b0, f0[i], l0, before, bn)
    requires forall k | k in l && k !in l0 ::
               sb.IsBitmapBlock(k) || k == Slot(blocks, files[i], DataSlot(bn)) || k == files[i].addrs[NDIRECT]
    ensures NotLogged(blocks, files[i], l, before, bn + 1)
  {
    hide Links;
    assert FileOk(blocks, files[i]) && FileOk(b0, f0[i]) by { LinksFileOk(sb, blocks, files, owner, i); }
    forall b | bn + 1 <= b < MAXFILE && b * BSIZE < files[i].size
      ensures Slot(blocks, files[i], DataSlot(b)) in l ==> Slot(blocks, files[i], DataSlot(b)) in before
    {
      assert KeepsBlock(b0, f0[i], b1, files[i], b);
      OtherSlotNotLogged(sb, blocks, files, owner, i, bn, b);
    }
  }

  lemma NothingLogged(blocks: seq<Block>, f: File, logged: set<nat>, bn: nat)
    requires FileOk(blocks, f)
    ensures NotLogged(blocks, f, logged, logged, bn)
  {
  }

  lemma LinksFileOk(sb: Superblock, blocks: seq<Block>, files: seq<File>, owner: map<nat, Owner>, i: nat)
    requires Links(sb, blocks, files, owner) && i < |files|
    ensures FileOk(blocks, files[i])
  {
  }

  /** How many blocks n bytes at offset off lie in. */
  function Spanned(off: nat, n: nat): nat {
    if n == 0 then 0 else (off + n - 1) / BSIZE - off / BSIZE + 1
  }

  /** How much of what is left fits into the current block. */
  function ChunkSize(off: nat, n: nat, tot: nat): (m: nat)
    requires tot < n
    ensures 0 < m && tot + m <= n && (off + tot) % BSIZE + m <= BSIZE
    ensures tot + m < n ==> (off + tot + m) % BSIZE == 0 && (off + tot + m) / BSIZE == (off + tot) / BSIZE + 1
  {
    var room := BSIZE - (off + tot) % BSIZE;
    if n - tot < room then n - tot else room
  }

  /** How far writei gets: to the end of the last chunk that can be copied whole. */
  predicate Copied(off: nat, n: nat, readable: nat, tot: nat) {
    && tot <= n && (tot == n <==> n <= readable || n == 0)
    && (tot < n ==> (tot <= readable || tot == 0) && readable < tot + ChunkSize(off, n, tot))
    && (0 < tot < n ==> (off + tot) % BSIZE == 0)
  }

  /** writei has done turns chunks, in as many blocks. */
  predicate Turn(off: nat, n: nat, readable: nat, tot: nat, turns: nat) {
    && tot <= n && (tot <= readable || tot == 0) && turns <= Spanned(off, n)
    && (tot < n ==> (off + tot) / BSIZE == off / BSIZE + turns)
    && (0 < tot < n ==> (off + tot) % BSIZE == 0)
  }

  lemma TurnNext(off: nat, n: nat, readable: nat, tot: nat, turns: nat)
    requires Turn(off, n, readable, tot, turns) && tot < n
    ensures turns < Spanned(off, n)
    ensures var m := ChunkSize(off, n, tot);
            if tot + m > readable then Copied(off, n, readable, tot) else Turn(off, n, readable, tot + m, turns + 1)
  {
    var m := ChunkSize(off, n, tot);
    assert (off + tot) / BSIZE <= (off + n - 1) / BSIZE;
  }

  /** The size of the inode is raised. */
  lemma SizeSet(sb: Superblock, blocks: seq<Block>, files: seq<File>, owner: map<nat, Owner>, inuse: set<nat>,
                itable: seq<Inode>, ip: nat, size: nat)
    requires ip < |itable| && itable[ip].refs > 0 && itable[ip].valid
    requires Consistent(sb, blocks, files, owner, inuse, itable, itable[ip].inum, {})
    requires var f := files[itable[ip].inum].(size := size); FileOk(blocks, f) && NoHoles(blocks, f)
    ensures var i := itable[ip].inum;
            Consistent(sb, blocks, files[i := files[i].(size := size)], owner, inuse,
                       itable[ip := itable[ip].(size := size)], i, {})
  {
    hide Links, Bits, NoHoles;
    Basics(sb, blocks, files, owner, inuse, itable, itable[ip].inum, {});
    SizeLinks(sb, blocks, files, owner, itable[ip].inum, size);
  }

  lemma SizeLinks(sb: Superblock, blocks: seq<Block>, files: seq<File>, owner: map<nat, Owner>, i: nat, size: nat)
    requires Links(sb, blocks, files, owner) && i < |files| && FileOk(blocks, files[i].(size := size))
    ensures Links(sb, blocks, files[i := files[i].(size := size)], owner)
  {
    var files' := files[i := files[i].(size := size)];
    forall j, s | 0 <= j < |files'| && 0 <= s < SLOTS
      ensures Slot(blocks, files'[j], s) == Slot(blocks, files[j], s) && SlotOwned(blocks, files', owner, j, s)
    {
      assert SlotOwned(blocks, files, owner, j, s);
    }
    forall b | b in owner
      ensures OwnerHolds(sb, blocks, files', owner, b)
    {
      assert OwnerHolds(sb, blocks, files, owner, b);
    }
  }

  function Held(b: nat): (r: set<nat>) {
    if b == 0 then {} else {b}
  }

  /** The first s entries are cleared, the others are as they were. */
  predicate Cleared(addrs: seq<nat>, was: seq<nat>, s: nat) {
    && |addrs| == |was| == NDIRECT + 1
    && forall t | 0 <= t < |addrs| :: addrs[t] == if t < s then 0 else was[t]
  }

  /** The blocks of inode i in direct slots below s and in indirect entries below slot e. */
  ghost function FreedSlots(owner: map<nat, Owner>, i: nat, s: nat, e: nat): (r: set<nat>) {
    OwnedIn(owner, i, 0, s) + OwnedIn(owner, i, NDIRECT + 1, e)
  }

  lemma FreedDirect(sb: Superblock, blocks: seq<Block>, files: seq<File>, owner: map<nat, Owner>, i: nat, s: nat)
    requires Links(sb, blocks, files, owner) && i < |files| && s < NDIRECT
    ensures var b := files[i].addrs[s];
            && FreedSlots(owner, i, s + 1, NDIRECT + 1) == FreedSlots(owner, i, s, NDIRECT + 1) + Held(b)
            && (b != 0 ==> b in owner && b !in FreedSlots(owner, i, s, NDIRECT + 1))
  {
    OwnedInStep(sb, blocks, files, owner, i, 0, s);
  }

  lemma FreedEntry(sb: Superblock, blocks: seq<Block>, files: seq<File>, owner: map<nat, Owner>, i: nat, j: nat)
    requires Links(sb, blocks, files, owner) && i < |files| && j < NINDIRECT && files[i].addrs[NDIRECT] != 0
    ensures var b := WordAt(blocks[files[i].addrs[NDIRECT]], j);
            && FreedSlots(owner, i, NDIRECT, NDIRECT + 1 + (j + 1))
               == FreedSlots(owner, i, NDIRECT, NDIRECT + 1 + j) + Held(b)
            && (b != 0 ==> b in owner && b !in FreedSlots(owner, i, NDIRECT, NDIRECT + 1 + j))
  {
    OwnedInStep(sb, blocks, files, owner, i, NDIRECT + 1, NDIRECT + 1 + j);
  }

  /** Direct entries, indirect entries and the pointer to the indirect block are all there is. */
  lemma AllFreed(sb: Superblock, blocks: seq<Block>, files: seq<File>, owner: map<nat, Owner>, i: nat)
    requires Links(sb, blocks, files, owner) && i < |files|
    ensures var ind := files[i].addrs[NDIRECT];
            && (ind == 0 ==> FreedSlots(owner, i, NDIRECT, NDIRECT + 1) == BlocksOf(owner, i))
            && (ind != 0 ==> FreedSlots(owner, i, NDIRECT, SLOTS) + Held(ind) == BlocksOf(owner, i) && ind in owner
                             && ind !in FreedSlots(owner, i, NDIRECT, SLOTS))
  {
    var ind := files[i].addrs[NDIRECT];
    assert SlotOwned(blocks, files, owner, i, NDIRECT) && Slot(blocks, files[i], NDIRECT) == ind;
    forall b | b in BlocksOf(owner, i)
      ensures b in if ind == 0 then FreedSlots(owner, i, NDIRECT, NDIRECT + 1)
                   else FreedSlots(owner, i, NDIRECT, SLOTS) + Held(ind)
    {
      assert OwnerHolds(sb, blocks, files, owner, b);
    }
  }

  lemma SlicePart(c: seq<byte>, lo: nat, tot: nat, m: nat, k: nat)
    requires lo + tot + m <= |c| && k <= m
    ensures c[lo..lo + tot] + c[lo + tot..lo + tot + m][..k] == c[lo..lo + tot + k]
  {
    assert c[lo + tot..lo + tot + m][..k] == c[lo + tot..lo + tot + k];
    SliceStep(c, lo, lo + tot, lo + tot + k);
  }

  lemma SliceStep(c: seq<byte>, lo: nat, mid: nat, hi: nat)
    requires lo <= mid <= hi <= |c|
    ensures c[lo..mid] + c[mid..hi] == c[lo..hi]
  {
  }

  lemma OthersKept(sb: Superblock, blocks: seq<Block>, blocks': seq<Block>, files: seq<File>, owner: map<nat, Owner>)
    requires Links(sb, blocks, files, owner) && AllMapped(blocks, files) && |blocks'| == |blocks| && sb.size <= |blocks|
    requires forall k | 0 <= k < |blocks| && !sb.IsBitmapBlock(k) :: blocks'[k] == blocks[k]
    ensures FilesOk(blocks', files) && AllMapped(blocks', files)
    ensures forall j | 0 <= j < |files| :: Contents(blocks', files[j]) == Contents(blocks, files[j])
  {
    forall k | k in owner && k < |blocks|
      ensures blocks'[k] == blocks[k]
    {
      assert OwnerHolds(sb, blocks, files, owner, k);
    }
    FrameExtends(sb, blocks, blocks', files, owner);
    AllMappedExtends(blocks, files, blocks', files);
  }

  /** The end of itrunc, before iupdate: the inode is empty and its blocks are unmarked. */
  lemma Truncated(sb: Superblock, blocks: seq<Block>, blocks': seq<Block>, files: seq<File>, owner: map<nat, Owner>,
                  inuse: set<nat>, itable: seq<Inode>, ip: nat)
    requires ip < |itable| && itable[ip].refs > 0 && itable[ip].valid
    requires Consistent(sb, blocks, files, owner, owner.Keys, itable, -1, {}) && |blocks'| == |blocks|
    requires forall k | 0 <= k < |blocks| && !sb.IsBitmapBlock(k) :: blocks'[k] == blocks[k]
    requires Links(sb, blocks', files, owner) && Bits(sb, blocks', inuse)
             && inuse == owner.Keys - BlocksOf(owner, itable[ip].inum)
    ensures var i := itable[ip].inum;
            && Consistent(sb, blocks', files[i := EmptyFile()], owner - BlocksOf(owner, i), inuse,
                          itable[ip := itable[ip].(size := 0, addrs := EmptyFile().addrs)], i, {})
            && (forall j | 0 <= j < |files| && j != i ::
                  FileOk(blocks', files[j]) && Contents(blocks', files[j]) == Contents(blocks, files[j]))
  {
    hide Links, Bits, AllMapped, Contents, BlocksOf, DiskInode;
    Basics(sb, blocks, files, owner, owner.Keys, itable, -1, {});
    var i := itable[ip].inum;
    var files', owner' := files[i := EmptyFile()], owner - BlocksOf(owner, i);
    UnlinkFile(sb, blocks', files, owner, i);
    SyncedFrame(sb, blocks, blocks', files, -1);
    OthersKept(sb, blocks, blocks', files, owner);
    EmptyMapped(blocks', files, i);
  }

  lemma ContentsSize(blocks: seq<Block>, f: File)
    requires FileOk(blocks, f)
    ensures |Contents(blocks, f)| == f.size
  {
  }

  lemma EmptyMapped(blocks: seq<Block>, files: seq<File>, i: nat)
    requires FilesOk(blocks, files) && AllMapped(blocks, files) && i < |files|
             && FilesOk(blocks, files[i := EmptyFile()])
    ensures AllMapped(blocks, files[i := EmptyFile()])
  {
    var files' := files[i := EmptyFile()];
    forall j | 0 <= j < |files'|
      ensures NoHoles(blocks, files'[j])
    {
      assert j != i ==> NoHoles(blocks, files[j]);
    }
  }

  lemma DiskInodeFits(sb: Superblock, blocks: seq<Block>, i: nat)
    requires sb.Fits(blocks) && i < sb.ninodes
    ensures DiskInode(sb, blocks, i).Fits()
  {
    var ws := WordsAt(blocks[sb.IBlock(i)], 16 * (i % IPB), 16);
    assert |ws[3..]| == NDIRECT + 1;
  }

  /** An inode that has a type, and is otherwise all zero. */
  function NewDinode(kind: nat): (d: Dinode) {
    Dinode(kind, 0, 0, 0, 0, ZeroWordSeq(NDIRECT + 1))
  }

  function ZeroWordSeq(n: nat): (z: seq<word>)
    ensures |z| == n && forall k | 0 <= k < n :: z[k] == 0
  {
    if n == 0 then [] else ZeroWordSeq(n - 1) + [0]
  }

  /** ialloc's change to a free inode on the disk. */
  lemma InodeTyped(sb: Superblock, blocks: seq<Block>, files: seq<File>, owner: map<nat, Owner>, inuse: set<nat>,
                   itable: seq<Inode>, i: nat, kind: nat)
    requires Consistent(sb, blocks, files, owner, inuse, itable, -1, {}) && i < sb.ninodes && 0 < kind < 0x1_0000
    requires DiskInode(sb, blocks, i).kind == 0
    ensures var k := sb.IBlock(i);
            && k < |blocks|
            && var blocks' := blocks[k := PutInode(blocks[k], i % IPB, NewDinode(kind))];
            && Consistent(sb, blocks', files, owner, inuse, itable, -1, {}) && sb.IsManaged(k) && NewDinode(kind).Fits()
            && files[i] == EmptyFile() && Extends(blocks, files, blocks', files)
            && DiskInode(sb, blocks', i) == NewDinode(kind)
  {
    hide Bits, Links, AllMapped, Extends, PutInode, DiskInode;
    Basics(sb, blocks, files, owner, inuse, itable, -1, {});
    var k, d := sb.IBlock(i), NewDinode(kind);
    InodePut(sb, blocks, files, owner, inuse, i, d);
    var blocks' := blocks[k := PutInode(blocks[k], i % IPB, d)];
    assert ZeroWordSeq(NDIRECT + 1) == Zeros(NDIRECT + 1);
    assert Synced(sb, blocks', files, -1);
  }

  /** An inode that is locked may get ahead of the disk. */
  lemma Opened(sb: Superblock, blocks: seq<Block>, files: seq<File>, owner: map<nat, Owner>, inuse: set<nat>,
               itable: seq<Inode>, ip: nat)
    requires Consistent(sb, blocks, files, owner, inuse, itable, -1, {}) && ip < |itable|
    ensures Consistent(sb, blocks, files, owner, inuse, itable, itable[ip].inum, {})
  {
  }

  lemma KindCleared(sb: Superblock, blocks: seq<Block>, files: seq<File>, owner: map<nat, Owner>, inuse: set<nat>,
                    itable: seq<Inode>, ip: nat)
    requires ip < |itable| && itable[ip].refs > 0 && itable[ip].valid
    requires Consistent(sb, blocks, files, owner, inuse, itable, -1, {})
    ensures Consistent(sb, blocks, files, owner, inuse, itable[ip := itable[ip].(kind := 0)], itable[ip].inum, {})
  {
  }

  lemma EntryForgotten(sb: Superblock, blocks: seq<Block>, files: seq<File>, owner: map<nat, Owner>, inuse: set<nat>,
                       itable: seq<Inode>, ip: nat)
    requires ip < |itable| && itable[ip].refs > 0 && itable[ip].valid
    requires Consistent(sb, blocks, files, owner, inuse, itable, itable[ip].inum, {}) && Synced(sb, blocks, files, -1)
    ensures Consistent(sb, blocks, files, owner, inuse, itable[ip := itable[ip].(valid := false)], -1, {})
  {
    var t := itable[ip := itable[ip].(valid := false)];
    assert TableOk(sb, blocks, files, t, -1);
  }

  /** The effect of a writei of src at off to ip that wrote r bytes, from the state (b0, t0, f0) to (b, t, f): the
      content of the inode is the old one with [off, off + r) replaced by the first r bytes of src, and no other inode's
      content changes. */
  ghost predicate Rewritten(ip: nat, off: nat, src: seq<byte>, r: nat, b0: seq<Block>, t0: seq<Inode>, f0: seq<File>,
                            b: seq<Block>, t: seq<Inode>, f: seq<File>)
  {
    && ip < |t0| == |t| && t == t0[ip := t0[ip].(addrs := t[ip].addrs, size := t[ip].size)]
    && FilesOk(b0, f0) && FilesOk(b, f) && t[ip].inum < |f| == |f0| && off <= f0[t[ip].inum].size && r <= |src|
    && t[ip].size == f[t[ip].inum].size
    && (forall j | 0 <= j < |f| ::
          Contents(b, f[j]) == if j == t[ip].inum then Overwritten(Contents(b0, f0[j]), off, src[..r])
          else Contents(b0, f0[j]))
  }

  /** The bytes of the chunk after the first r that a copy brought in before it failed. The copy goes page by page, so
      it stops exactly at the first byte that cannot be read. */
  function HalfCopied(src: seq<byte>, readable: nat, r: nat): (data: seq<byte>) {
    if r <= readable < |src| then src[r..readable] else []
  }

  lemma HalfCopiedFits(off: nat, src: seq<byte>, readable: nat, r: nat)
    requires Copied(off, |src|, readable, r) && r < |src|
    ensures (off + r) % BSIZE + |HalfCopied(src, readable, r)| <= BSIZE
  {
  }

  /** blocks are those of clean, but for data at position p of the file. */
  ghost predicate Torn(clean: seq<Block>, blocks: seq<Block>, f: File, p: nat, data: seq<byte>) {
    if data == [] then blocks == clean
    else
      && FileOk(clean, f) && p < MAXFILE * BSIZE && p % BSIZE + |data| <= BSIZE
      && var a := Slot(clean, f, DataSlot(p / BSIZE));
      0 < a < |clean| && blocks == clean[a := Splice(clean[a], p % BSIZE, data)]
  }

  lemma TornIsData(sb: Superblock, blocks: seq<Block>, files: seq<File>, owner: map<nat, Owner>, inuse: set<nat>,
                   itable: seq<Inode>, i: nat, p: nat)
    requires Consistent(sb, blocks, files, owner, inuse, itable, -1, {}) && i < |files| && p < MAXFILE * BSIZE
    requires Slot(blocks, files[i], DataSlot(p / BSIZE)) != 0
    ensures var a := Slot(blocks, files[i], DataSlot(p / BSIZE)); sb.IsData(a) && a < |blocks|
  {
    ChunkLinks(sb, blocks, files, owner, i, p, [], Slot(blocks, files[i], DataSlot(p / BSIZE)));
  }

  /** Content c, with data at position p as far as it goes, if it is the file that is hit. */
  function Patched(c: seq<byte>, hit: bool, p: nat, data: seq<byte>): (r: seq<byte>)
    requires hit ==> p <= |c|
  {
    if hit then Overwritten(c, p, data)[..|c|] else c
  }

  /** What a failed copy does to the files. The file system stays consistent, and no other file changes; the file itself
      changes past what writei says it has written, as far as it goes. */
  lemma TornContents(sb: Superblock, clean: seq<Block>, blocks: seq<Block>, files: seq<File>, owner: map<nat, Owner>,
                     inuse: set<nat>, itable: seq<Inode>, i: nat, p: nat, data: seq<byte>)
    requires Consistent(sb, clean, files, owner, inuse, itable, -1, {}) && i < |files| && p <= files[i].size
    requires Torn(clean, blocks, files[i], p, data)
    ensures Consistent(sb, blocks, files, owner, inuse, itable, -1, {})
    ensures forall j | 0 <= j < |files| ::
              Contents(blocks, files[j]) == Patched(Contents(clean, files[j]), j == i, p, data)
  {
    hide Bits, Links, Synced, TableOk;
    Basics(sb, clean, files, owner, inuse, itable, -1, {});
    if data == [] {
      assert Patched(Contents(clean, files[i]), true, p, data) == Contents(clean, files[i]);
    } else {
      var a := Slot(clean, files[i], DataSlot(p / BSIZE));
      ChunkWritten(sb, clean, files, owner, inuse, itable, -1, i, p, data, a);
      Basics(sb, blocks, files, owner, inuse, itable, -1, {});
      forall j | 0 <= j < |files|
        ensures Contents(blocks, files[j]) == Patched(Contents(clean, files[j]), j == i, p, data)
      {
        TornContent(sb, clean, files, owner, i, p, data, a, j);
      }
    }
  }

  lemma TornContent(sb: Superblock, clean: seq<Block>, files: seq<File>, owner: map<nat, Owner>, i: nat, p: nat,
                    data: seq<byte>, a: nat, j: nat)
    requires Links(sb, clean, files, owner) && sb.size <= |clean| && i < |files| && j < |files| && p <= files[i].size
    requires p % BSIZE + |data| <= BSIZE && p < MAXFILE * BSIZE && a == Slot(clean, files[i], DataSlot(p / BSIZE)) != 0
    requires NoHoles(clean, files[j])
    ensures a < |clean|
    ensures var blocks := clean[a := Splice(clean[a], p % BSIZE, data)];
            && FileOk(blocks, files[j])
            && Contents(blocks, files[j]) == Patched(Contents(clean, files[j]), j == i, p, data)
  {
    ChunkLinks(sb, clean, files, owner, i, p, data, a);
    var blocks := clean[a := Splice(clean[a], p % BSIZE, data)];
    var c, want := Contents(blocks, files[j]), Patched(Contents(clean, files[j]), j == i, p, data);
    forall q | 0 <= q < files[j].size
      ensures c[q] == want[q]
    {
      assert q / BSIZE * BSIZE <= q;
      ChunkByte(sb, clean, files, owner, i, p, data, a, j, q);
    }
    assert c == want;
  }

  lemma PatchedPastEnd(c: seq<byte>, data: seq<byte>)
    ensures Patched(c, true, |c|, data) == c
  {
  }

  lemma WrittenSize(ip: nat, off: nat, src: seq<byte>, r: nat, b0: seq<Block>, t0: seq<Inode>, f0: seq<File>,
                    b: seq<Block>, t: seq<Inode>, f: seq<File>)
    requires Rewritten(ip, off, src, r, b0, t0, f0, b, t, f)
    ensures off + r <= t[ip].size
  {
    var i := t[ip].inum;
    assert |Contents(b, f[i])| == f[i].size;
  }

  lemma SameContents(ip: nat, off: nat, src: seq<byte>, r: nat, b0: seq<Block>, t0: seq<Inode>, f0: seq<File>,
                     b: seq<Block>, clean: seq<Block>, t: seq<Inode>, f: seq<File>)
    requires Rewritten(ip, off, src, r, b0, t0, f0, b, t, f) && FilesOk(clean, f)
    requires forall j | 0 <= j < |f| :: Contents(clean, f[j]) == Contents(b, f[j])
    ensures Rewritten(ip, off, src, r, b0, t0, f0, clean, t, f)
  {
  }

  // When writei keeps its promise that past what it has written nothing changes.

  /** Where the chunk begins that the copy of n > readable bytes to offset off fails in. */
  function FailsAt(off: nat, readable: nat): (p: nat) {
    var block := (off + readable) / BSIZE * BSIZE;
    if off < block then block else off
  }

  lemma CopiedUpTo(off: nat, n: nat, readable: nat, r: nat)
    requires Copied(off, n, readable, r)
    ensures n <= readable ==> r == n
    ensures readable < n ==> r <= readable && off + r == FailsAt(off, readable)
  {
    if readable < n {
      assert (off + r) / BSIZE == (off + readable) / BSIZE;
    }
  }

  /** A write of src at offset off to a file with content c does no harm: all of it can be read, or, up to the first
      byte that cannot, the chunk with that byte brings in what the file has there. */
  ghost predicate Harmless(c: seq<byte>, off: nat, src: seq<byte>, readable: nat) {
    || |src| <= readable
    || forall q | FailsAt(off, readable) <= q < off + readable && q < |c| :: src[q - off] == c[q]
  }

  lemma SamePatch(c: seq<byte>, off: nat, src: seq<byte>, readable: nat, r: nat)
    requires off <= |c| && r <= readable < |src|
    ensures var now := Overwritten(c, off, src[..r]);
            && off + r <= |now|
            && (Patched(now, true, off + r, src[r..readable]) == now <==>
                forall q | off + r <= q < off + readable && q < |c| :: src[q - off] == c[q])
  {
    var now, data := Overwritten(c, off, src[..r]), src[r..readable];
    var patched := Patched(now, true, off + r, data);
    assert forall q | off + r <= q < off + readable && q < |c| ::
        now[q] == c[q] && patched[q] == data[q - off - r] == src[q - off];
    if forall q | off + r <= q < off + readable && q < |c| :: src[q - off] == c[q] {
      assert forall q | 0 <= q < |now| :: patched[q] == now[q];
    }
  }

  lemma PatchExactly(c: seq<byte>, off: nat, src: seq<byte>, readable: nat, r: nat, data: seq<byte>)
    requires Copied(off, |src|, readable, r) && off <= |c|
    requires data == HalfCopied(src, readable, r) || (data == [] && |Overwritten(c, off, src[..r])| <= off + r)
    ensures var now := Overwritten(c, off, src[..r]);
            && off + r <= |now|
            && (Patched(now, true, off + r, data) == now <==> Harmless(c, off, src, readable))
  {
    hide Copied;
    CopiedUpTo(off, |src|, readable, r);
    if |src| <= readable || data == [] {
      var now := Overwritten(c, off, src[..r]);
      assert Patched(now, true, off + r, []) == now;
    } else {
      SamePatch(c, off, src, readable, r);
    }
  }

  lemma NotPatched(c: seq<byte>, p: nat, data: seq<byte>)
    ensures Patched(c, false, p, data) == c
  {
  }

  /** After writei the file has its old content with just the bytes that writei says it has written, if and only if the
      write does no harm. No other file changes. */
  ghost predicate AsPromised(ip: nat, off: nat, src: seq<byte>, readable: nat, r: nat, b0: seq<Block>, f0: seq<File>,
                             b: seq<Block>, t: seq<Inode>, f: seq<File>)
  {
    && FilesOk(b0, f0) && FilesOk(b, f) && ip < |t| && t[ip].inum < |f| == |f0| && off <= f0[t[ip].inum].size
    && r <= |src|
    && var i := t[ip].inum;
    && (Contents(b, f[i]) == Overwritten(Contents(b0, f0[i]), off, src[..r]) <==>
        Harmless(Contents(b0, f0[i]), off, src, readable))
    && forall j | 0 <= j < |f| && j != i :: Contents(b, f[j]) == Contents(b0, f0[j])
  }

  /** What is left of a failed copy is data; it is all of that, or, if the block was new, what was left lies past the
      end of the file. */
  lemma TornExactly(sb: Superblock, clean: seq<Block>, blocks: seq<Block>, files: seq<File>, owner: map<nat, Owner>,
                    inuse: set<nat>, itable: seq<Inode>, ip: nat, off: nat, src: seq<byte>, readable: nat, r: nat,
                    b0: seq<Block>, t0: seq<Inode>, f0: seq<File>, data: seq<byte>)
    requires Consistent(sb, clean, files, owner, inuse, itable, -1, {})
    requires Copied(off, |src|, readable, r) && Rewritten(ip, off, src, r, b0, t0, f0, clean, itable, files)
    requires Torn(clean, blocks, files[itable[ip].inum], off + r, data)
    requires data == HalfCopied(src, readable, r) || (data == [] && files[itable[ip].inum].size <= off + r)
    ensures AsPromised(ip, off, src, readable, r, b0, f0, blocks, itable, files)
  {
    hide Consistent, Torn, Copied, Contents, Overwritten, Patched, Harmless, HalfCopied;
    var i := itable[ip].inum;
    ContentsSize(clean, files[i]);
    ContentsSize(b0, f0[i]);
    WrittenSize(ip, off, src, r, b0, t0, f0, clean, itable, files);
    TornContents(sb, clean, blocks, files, owner, inuse, itable, i, off + r, data);
    Basics(sb, blocks, files, owner, inuse, itable, -1, {});
    PatchExactly(Contents(b0, f0[i]), off, src, readable, r, data);
    forall j | 0 <= j < |files| && j != i
      ensures Contents(blocks, files[j]) == Contents(b0, f0[j])
    {
      NotPatched(Contents(clean, files[j]), off + r, data);
    }
  }

  /** The guard that does not look at the bytes: whether the failing chunk begins before the end of the file. */
  predicate Safe(size: nat, off: nat, n: nat, readable: nat) {
    n <= readable || off + readable <= FailsAt(off, readable) || size <= FailsAt(off, readable)
  }

  /** A write of n bytes does no harm, whatever they are, if and only if it is safe. */
  lemma SafeExactly(c: seq<byte>, off: nat, n: nat, readable: nat)
    ensures Safe(|c|, off, n, readable) <==> forall src: seq<byte> | |src| == n :: Harmless(c, off, src, readable)
  {
    if !Safe(|c|, off, n, readable) {
      var p := FailsAt(off, readable);
      var other: byte := if c[p] == 0 then 1 else 0;
      var src: seq<byte> := seq(n, _ => other);
      assert src[p - off] != c[p];
      assert !Harmless(c, off, src, readable);
    }
  }

  /** after differs from before only in logged blocks, which are blocks of the file system. */
  predicate Accounted(sb: Superblock, before: seq<Block>, after: seq<Block>, logged: set<nat>) {
    && |before| == |after| && (forall k | k in logged :: sb.IsManaged(k))
    && (forall k | 0 <= k < |before| && k !in logged :: after[k] == before[k])
  }

  /** The bitmap marks every block. */
  ghost predicate Full(sb: Superblock, blocks: seq<Block>) {
    sb.Fits(blocks) && forall x | 0 <= x < sb.size :: Used(sb, blocks, x)
  }

  class Fs {
    const sb: Superblock
    var blocks: seq<Block>
    var itable: seq<Inode>
    ghost var files: seq<File>  // the current version of each inode
    ghost var owner: map<nat, Owner>  // the slot that holds each allocated data block
    ghost var inuse: set<nat>  // the data blocks marked in the bitmap
    ghost var logged: set<nat>  // the blocks passed to log_write since the transaction began
    ghost var base: seq<Block>  // the blocks as they were then

    /** What holds whenever no operation is under way (open < 0), or only the in-memory copy of inode open is ahead of
        the disk. */
    ghost predicate Valid(open: int)
      reads this
    {
      Holding(open, {})
    }

    /** The same, with some marked blocks that no slot holds yet. */
    ghost predicate Holding(open: int, extra: set<nat>)
      reads this
    {
      Consistent(sb, blocks, files, owner, inuse, itable, open, extra) && AllLogged()
    }

    /** Whatever the transaction has changed has been passed to log_write. */
    ghost predicate AllLogged()
      reads this`blocks, this`logged, this`base
    {
      LoggedIn(blocks)
    }

    /** The same of blocks b. */
    ghost predicate LoggedIn(b: seq<Block>)
      reads this`logged, this`base
    {
      Accounted(sb, base, b, logged)
    }

    /** Blocks b would do between operations. */
    ghost predicate Settled(b: seq<Block>)
      reads this
    {
      Consistent(sb, b, files, owner, inuse, itable, -1, {}) && LoggedIn(b)
    }

    /** A new transaction begins. */
    ghost method Begin()
      modifies this`logged, this`base
      ensures logged == {} && base == blocks && AllLogged()
    {
      logged, base := {}, blocks;
    }

    constructor (superblock: Superblock, image: seq<Block>, entries: nat, ghost f: seq<File>, ghost o: map<nat, Owner>)
      requires OnDisk(superblock, image, f, o)
      ensures Valid(-1) && sb == superblock && blocks == image && files == f && owner == o && logged == {}
              && base == image
    {
      sb, blocks := superblock, image;
      itable := seq(entries, _ => Inode(0, 0, false, 0, 0, 0, 0, 0, []));
      files, owner, inuse, logged, base := f, o, o.Keys, {}, image;
    }

    /** Change the buffer of block k, and log_write it. */
    method Put(k: nat, data: Block)
      requires k < |blocks| && sb.IsManaged(k) && AllLogged()
      modifies this`blocks, this`logged
      ensures blocks == old(blocks)[k := data] && logged == old(logged) + {k} && AllLogged()
    {
      blocks := blocks[k := data];
      logged := logged + {k};
    }

    /** What balloc does with the free block it has found: mark it in use, and zero it. */
    method Claim(b: nat)
      requires Bits(sb, blocks, inuse) && AllLogged() && b < sb.size && !Used(sb, blocks, b)
      modifies this`blocks, this`logged, this`inuse
      ensures AllLogged() && AllocStep(sb, old(blocks), blocks, old(inuse), b)
      ensures inuse == old(inuse) + {b} && logged == old(logged) + {sb.BBlock(b), b}
    {
      assert sb.IsData(b);
      MarkBit(sb, blocks, inuse, b, true);
      var k := sb.BBlock(b);
      Put(k, PutBit(blocks[k], b % BPB, true));
      inuse := inuse + {b};
      ghost var marked := blocks;
      Put(b, ZeroBlock());
      BitsFrame(sb, marked, blocks, inuse);
    }

    /** balloc: the first free block, marked and zeroed; or a panic when there is none. */
    method Balloc() returns (b: nat, panic: bool)
      requires Bits(sb, blocks, inuse) && AllLogged()
      modifies this`blocks, this`logged, this`inuse
      ensures AllLogged()
      ensures panic ==> blocks == old(blocks) && inuse == old(inuse) && logged == old(logged)
      ensures panic ==> Full(sb, blocks)
      ensures !panic ==>
                && AllocStep(sb, old(blocks), blocks, old(inuse), b)
                && inuse == old(inuse) + {b} && logged == old(logged) + {sb.BBlock(b), b}
      ensures !panic ==> forall x | 0 <= x < b :: Used(sb, old(blocks), x)
    {
      var first := 0;
      while first < sb.size
        invariant first % BPB == 0
        invariant forall x | 0 <= x < first && x < sb.size :: Used(sb, blocks, x)
        invariant blocks == old(blocks) && inuse == old(inuse) && logged == old(logged)
        decreases sb.size - first
      {
        var bp := blocks[sb.BBlock(first)];
        var bi := 0;
        while bi < BPB && first + bi < sb.size
          invariant 0 <= bi <= BPB
          invariant forall x | 0 <= x < first + bi && x < sb.size :: Used(sb, blocks, x)
          invariant blocks == old(blocks) && inuse == old(inuse) && logged == old(logged)
        {
          b := first + bi;
          assert sb.BBlock(b) == sb.BBlock(first) && b % BPB == bi;
          if !BitAt(bp, bi) {
            Claim(b);
            return b, false;
          }
          bi := bi + 1;
        }
        first := first + BPB;
      }
      return 0, true;
    }

    /** An inode that its lock holder may use. */
    ghost predicate Locked(ip: nat)
      reads this`itable
    {
      ip < |itable| && itable[ip].refs > 0 && itable[ip].valid
    }

    /** Only bitmap blocks and the given ones have been passed to log_write since. */
    ghost predicate LoggedOnly(before: set<nat>, these: set<nat>)
      reads this`logged
    {
      forall k | k in logged && k !in before :: sb.IsBitmapBlock(k) || k in these
    }

    ghost function Indirect(ip: nat): (ind: nat)
      reads this`itable
    {
      if ip < |itable| && |itable[ip].addrs| == NDIRECT + 1 then itable[ip].addrs[NDIRECT] else 0
    }

    /** Inode ip may have got more blocks since, but no file's content has changed, nor anything else of any inode. */
    ghost predicate Grown(ip: nat, blocks0: seq<Block>, itable0: seq<Inode>, files0: seq<File>, logged0: set<nat>,
                          these: set<nat>)
      reads this
    {
      && Locked(ip) && Valid(itable[ip].inum)
      && |itable0| == |itable| && itable == itable0[ip := itable0[ip].(addrs := itable[ip].addrs)]
      && |files0| == |files| && files == files0[itable[ip].inum := itable[ip].AsFile()]
      && Extends(blocks0, files0, blocks, files) && LoggedOnly(logged0, these) && InodesKept(sb, blocks0, blocks, -1)
    }

    /** Entry s of the inode, with a block allocated for it if it has none. */
    method LoadAddr(ip: nat, s: nat) returns (addr: nat, panic: bool)
      requires Locked(ip) && Valid(itable[ip].inum) && s <= NDIRECT
      modifies this`blocks, this`itable, this`files, this`owner, this`inuse, this`logged
      ensures panic ==> Full(sb, blocks) && old(itable)[ip].addrs[s] == 0
      ensures !panic ==>
                && Grown(ip, old(blocks), old(itable), old(files), old(logged), {addr})
                && |old(itable)[ip].addrs| == NDIRECT + 1 && itable[ip].addrs == old(itable)[ip].addrs[s := addr]
                && 0 != addr == Slot(blocks, files[itable[ip].inum], s)
                && (old(itable)[ip].addrs[s] != 0 ==> unchanged(this))
    {
      hide Bits, Links, Synced, TableOk, AllMapped, Extends, Full, AllLogged;
      Basics(sb, blocks, files, owner, inuse, itable, itable[ip].inum, {});
      EntryBasics(sb, blocks, files, owner, inuse, itable, itable[ip].inum, {}, ip);
      ghost var i := itable[ip].inum;
      panic := false;
      addr := itable[ip].addrs[s];
      if addr == 0 {
        addr, panic := Balloc();
        if !panic {
          Allocated(sb, old(blocks), blocks, files, owner, old(inuse), itable, i, addr);
          AddrSet(sb, blocks, files, owner, inuse, itable, ip, s, addr);
          itable := itable[ip := itable[ip].(addrs := itable[ip].addrs[s := addr])];
          files := files[i := SetAddr(files[i], s, addr)];
          owner := owner[addr := Owner(i, s)];
          ExtendsTrans(old(blocks), old(files), blocks, old(files), blocks, files);
          InodesSame(sb, old(blocks), blocks);
        }
      } else {
        assert itable[ip].addrs == itable[ip].addrs[s := addr];
        ExtendsSelf(sb, blocks, files, owner);
      }
    }

    /** Entry e of the indirect block, with a block allocated for it if it has none. */
    method LoadEntry(ip: nat, ind: nat, e: nat) returns (addr: nat, panic: bool)
      requires Locked(ip) && Valid(itable[ip].inum) && e < NINDIRECT
      requires 0 < ind < |blocks| && ind == Indirect(ip)
      modifies this`blocks, this`owner, this`inuse, this`logged
      ensures panic ==> Full(sb, blocks) && WordAt(old(blocks)[ind], e) == 0
      ensures !panic ==>
                && Grown(ip, old(blocks), old(itable), old(files), old(logged), {ind, addr})
                && 0 != addr == Slot(blocks, files[itable[ip].inum], NDIRECT + 1 + e)
                && (WordAt(old(blocks)[ind], e) != 0 ==> unchanged(this))
    {
      hide Bits, Links, Synced, TableOk, AllMapped, Extends, Full, AllLogged;
      Basics(sb, blocks, files, owner, inuse, itable, itable[ip].inum, {});
      EntryBasics(sb, blocks, files, owner, inuse, itable, itable[ip].inum, {}, ip);
      ghost var i := itable[ip].inum;
      panic := false;
      addr := WordAt(blocks[ind], e);
      if addr == 0 {
        addr, panic := Balloc();
        if !panic {
          EntryAllocated(sb, old(blocks), blocks, files, owner, old(inuse), itable, i, e, addr);
          Put(ind, PutWord(blocks[ind], e, addr));
          owner := owner[addr := Owner(i, NDIRECT + 1 + e)];
          InodesSame(sb, old(blocks), blocks);
        }
      } else {
        ExtendsSelf(sb, blocks, files, owner);
      }
    }

    lemma GrownAgain(ip: nat, b0: seq<Block>, t0: seq<Inode>, f0: seq<File>, l0: set<nat>, b1: seq<Block>,
                     f1: seq<File>, l1: set<nat>, these: set<nat>, those: set<nat>)
      requires Grown(ip, b1, itable, f1, l1, those) && ip < |t0| == |itable|
               && itable == t0[ip := t0[ip].(addrs := itable[ip].addrs)]
      requires Extends(b0, f0, b1, f1) && InodesKept(sb, b0, b1, -1) && |f0| == |files|
               && f1 == f0[itable[ip].inum := itable[ip].AsFile()]
      requires these <= those && forall k | k in l1 && k !in l0 :: sb.IsBitmapBlock(k) || k in these
      ensures Grown(ip, b0, t0, f0, l0, those)
    {
      ExtendsTrans(b0, f0, b1, f1, blocks, files);
    }

    /** bmap: the block that holds block bn of the file, allocated if there is none. Panics only for a
        block number beyond the largest file or when no block is free. No file's content changes. */
    method Bmap(ip: nat, bn: nat) returns (addr: nat, panic: bool)
      requires Locked(ip) && Valid(itable[ip].inum)
      modifies this`blocks, this`itable, this`files, this`owner, this`inuse, this`logged
      ensures panic ==> bn >= MAXFILE || Full(sb, blocks)
      ensures bn < MAXFILE && old(Slot(blocks, files[itable[ip].inum], DataSlot(bn))) != 0 ==> !panic
      ensures !panic ==>
                && bn < MAXFILE
                && Grown(ip, old(blocks), old(itable), old(files), old(logged), if bn < NDIRECT then {addr}
                         else {Indirect(ip), addr})
                && 0 != addr == Slot(blocks, files[itable[ip].inum], DataSlot(bn))
                && (old(Indirect(ip)) != 0 || bn < NDIRECT ==> Indirect(ip) == old(Indirect(ip)))
                && (old(Slot(blocks, files[itable[ip].inum], DataSlot(bn))) != 0 ==> unchanged(this))
    {
      if bn < NDIRECT {
        addr, panic := LoadAddr(ip, bn);
        return;
      }
      var e := bn - NDIRECT;
      if e < NINDIRECT {
        var ind;
        ind, panic := LoadAddr(ip, NDIRECT);
        if panic {
          return 0, true;
        }
        ghost var blocks1, files1, logged1 := blocks, files, logged;
        addr, panic := LoadEntry(ip, ind, e);
        if !panic {
          GrownAgain(ip, old(blocks), old(itable), old(files), old(logged), blocks1, files1, logged1, {ind},
                     {ind, addr});
        }
        return;
      }
      return 0, true;
    }

    /** iupdate: copy the in-memory inode to its block. No file's content changes. */
    method Iupdate(ip: nat)
      requires Locked(ip) && Valid(itable[ip].inum)
      requires itable[ip].kind == 0 ==> itable[ip].AsFile() == EmptyFile()
      modifies this`blocks, this`logged
      ensures Valid(if itable[ip].kind == 0 then itable[ip].inum else -1) && Synced(sb, blocks, files, -1)
      ensures Extends(old(blocks), files, blocks, files)
      ensures itable[ip].Fits() && DiskInode(sb, blocks, itable[ip].inum) == itable[ip].AsDinode()
      ensures InodesKept(sb, old(blocks), blocks, itable[ip].inum)
      ensures logged == old(logged) + {sb.IBlock(itable[ip].inum)}
    {
      hide Bits, Links, PutInode, InodesKept;
      Basics(sb, blocks, files, owner, inuse, itable, itable[ip].inum, {});
      OpenFits(sb, blocks, files, owner, inuse, itable, itable[ip].inum, ip);
      InodeStored(sb, blocks, files, owner, inuse, itable, ip);
      var k := sb.IBlock(itable[ip].inum);
      OneInodeChanged(sb, blocks, itable[ip].inum, itable[ip].AsDinode());
      Put(k, PutInode(blocks[k], itable[ip].inum % IPB, itable[ip].AsDinode()));
    }

    /** One turn of writei's loop after a successful copy: the chunk goes into the block that bmap returned. */
    method WriteChunk(ip: nat, addr: nat, off: nat, src: seq<byte>, tot: nat, m: nat, ghost b0: seq<Block>,
                      ghost f0: seq<File>)
      requires Locked(ip) && Valid(itable[ip].inum) && Progress(b0, f0, blocks, files, itable[ip].inum, off, src, tot)
      requires 0 < m && tot + m <= |src| && off + tot + m <= MAXFILE * BSIZE && (off + tot) % BSIZE + m <= BSIZE
      requires addr == Slot(blocks, files[itable[ip].inum], DataSlot((off + tot) / BSIZE)) != 0
      modifies this`blocks, this`logged
      ensures Valid(itable[ip].inum) && Progress(b0, f0, blocks, files, itable[ip].inum, off, src, tot + m)
      ensures logged == old(logged) + {addr} && InodesKept(sb, old(blocks), blocks, -1)
      ensures forall s | 0 <= s < SLOTS :: Slot(blocks, files[itable[ip].inum], s)
                                           == Slot(old(blocks), files[itable[ip].inum], s)
    {
      ghost var i := itable[ip].inum;
      ProgressChunk(sb, b0, f0, blocks, files, owner, i, off, src, tot, m, addr);
      ChunkWritten(sb, blocks, files, owner, inuse, itable, i, i, off + tot, src[tot..tot + m], addr);
      ChunkLinks(sb, blocks, files, owner, i, off + tot, src[tot..tot + m], addr);
      Put(addr, Splice(blocks[addr], (off + tot) % BSIZE, src[tot..tot + m]));
      InodesSame(sb, old(blocks), blocks);
    }

    /** The state of a writei that began with (b0, t0, f0) and has written tot bytes. */
    ghost predicate Writing(ip: nat, off: nat, src: seq<byte>, tot: nat, b0: seq<Block>, t0: seq<Inode>, f0: seq<File>)
      reads this
    {
      && Locked(ip) && Valid(itable[ip].inum)
      && |itable| == |t0| && itable == t0[ip := t0[ip].(addrs := itable[ip].addrs)]
      && Progress(b0, f0, blocks, files, itable[ip].inum, off, src, tot) && InodesKept(sb, b0, blocks, -1)
    }

    /** What has been passed to log_write since: bitmap blocks, the blocks of data, and the indirect block if it was
        needed. */
    ghost predicate Touched(ip: nat, before: set<nat>, data: set<nat>, indirect: bool)
      reads this`logged, this`itable
    {
      && LoggedOnly(before, if indirect then data + {Indirect(ip)} else data)
      && (indirect ==> Indirect(ip) != 0)
    }

    /** Position p of the file lies in block addr. */
    ghost predicate MappedTo(p: nat, addr: nat, ip: nat)
      reads this`blocks, this`itable, this`files
    {
      && p < MAXFILE * BSIZE && ip < |itable| && itable[ip].inum < |files| && FileOk(blocks, files[itable[ip].inum])
      && addr == Slot(blocks, files[itable[ip].inum], DataSlot(p / BSIZE)) != 0
    }

    /** The blocks of the file from number bn on, as far as it goes, have not been passed to log_write since. */
    ghost predicate Unlogged(ip: nat, before: set<nat>, bn: nat)
      reads this`blocks, this`itable, this`files, this`logged
    {
      && ip < |itable| && itable[ip].inum < |files| && FileOk(blocks, files[itable[ip].inum])
      && NotLogged(blocks, files[itable[ip].inum], logged, before, bn)
    }

    /** One turn of writei's loop. The first readable bytes of src can be copied in; the copy of a chunk beyond them
        fails. */
    method WriteTurn(ip: nat, src: seq<byte>, off: nat, tot: nat, readable: nat, ghost b0: seq<Block>,
                     ghost t0: seq<Inode>, ghost f0: seq<File>, ghost l0: set<nat>, ghost data: set<nat>,
                     ghost indirect: bool)
      returns (m: nat, failed: bool, panic: bool, addr: nat)
      requires Writing(ip, off, src, tot, b0, t0, f0) && Touched(ip, l0, data, indirect)
      requires tot < |src| && off + |src| <= MAXFILE * BSIZE && Unlogged(ip, l0, (off + tot) / BSIZE)
      modifies this`blocks, this`itable, this`files, this`owner, this`inuse, this`logged
      ensures panic ==> Full(sb, blocks) && old(itable)[ip].size <= off + tot
      ensures m == ChunkSize(off, |src|, tot)
      ensures !panic ==>
                && failed == (tot + m > readable)
                && Writing(ip, off, src, if failed then tot else tot + m, b0, t0, f0)
                && Touched(ip, l0, data + {addr}, indirect || (off + tot) / BSIZE >= NDIRECT)
                && (failed ==> MappedTo(off + tot, addr, ip))
                && (failed && addr in logged && addr !in l0 ==> itable[ip].size <= off + tot)
                && (!failed ==> Unlogged(ip, l0, (off + tot) / BSIZE + 1))
    {
      hide Bits, Links, Synced, TableOk, Full, NotLogged, NoHoles, Progress, LoggedIn;
      EntryBasics(sb, blocks, files, owner, inuse, itable, itable[ip].inum, {}, ip);
      ghost var i := itable[ip].inum;
      m := ChunkSize(off, |src|, tot);
      MappedBelow(ip, l0, off + tot);
      addr, panic := Bmap(ip, (off + tot) / BSIZE);
      failed := tot + m > readable;
      if panic {
        return;
      }
      ProgressExtends(b0, f0, old(blocks), old(files), blocks, files, i, off, src, tot);
      ghost var b1 := blocks;
      if !failed {
        WriteChunk(ip, addr, off, src, tot, m, b0, f0);
        StillNotLogged(sb, old(blocks), old(files), b1, blocks, files, owner, i, (off + tot) / BSIZE, old(logged),
                       logged, l0);
        LinksFileOk(sb, blocks, files, owner, i);
      }
    }

    /** A position inside the file lies in a block, which has not been logged. */
    lemma MappedBelow(ip: nat, before: set<nat>, p: nat)
      requires Locked(ip) && Valid(itable[ip].inum) && Unlogged(ip, before, p / BSIZE) && p < MAXFILE * BSIZE
      ensures itable[ip].inum < |files| && FileOk(blocks, files[itable[ip].inum])
      ensures p < itable[ip].size ==>
                var x := Slot(blocks, files[itable[ip].inum], DataSlot(p / BSIZE));
                x != 0 && (x in logged ==> x in before)
    {
      hide Bits, Links, Synced;
      EntryBasics(sb, blocks, files, owner, inuse, itable, itable[ip].inum, {}, ip);
      assert p / BSIZE * BSIZE <= p;
    }

    /** The loop of writei. */
    method WriteBlocks(ip: nat, src: seq<byte>, off: nat, readable: nat)
      returns (tot: nat, panic: bool, last: nat, ghost touched: set<nat>)
      requires Locked(ip) && Valid(itable[ip].inum) && off <= itable[ip].size && off + |src| <= MAXFILE * BSIZE
      modifies this`blocks, this`itable, this`files, this`owner, this`inuse, this`logged
      ensures panic ==> Full(sb, blocks) && old(itable)[ip].size < off + |src|
      ensures !panic ==>
                && Writing(ip, off, src, tot, old(blocks), old(itable), old(files)) && Copied(off, |src|, readable, tot)
                && LoggedOnly(old(logged), touched) && |touched| <= Spanned(off, |src|) + 1
                && (tot < |src| ==> MappedTo(off + tot, last, ip))
                && (tot < |src| && last in logged && last !in old(logged) ==> itable[ip].size <= off + tot)
    {
      hide Consistent, Progress, Full, MappedTo, NotLogged, InodesKept;
      tot, panic, last := 0, false, 0;
      Basics(sb, blocks, files, owner, inuse, itable, itable[ip].inum, {});
      InodesSame(sb, blocks, blocks);
      EntryBasics(sb, blocks, files, owner, inuse, itable, itable[ip].inum, {}, ip);
      ghost var b0, t0, f0, l0 := blocks, itable, files, logged;
      ghost var turns, data, indirect := 0, {}, false;
      ProgressStart(blocks, files, itable[ip].inum, off, src);
      NothingLogged(blocks, files[itable[ip].inum], logged, off / BSIZE);
      while tot < |src|
        invariant Turn(off, |src|, readable, tot, turns) && |data| <= turns
        invariant tot < |src| ==> Unlogged(ip, l0, (off + tot) / BSIZE)
        invariant Writing(ip, off, src, tot, b0, t0, f0) && Touched(ip, l0, data, indirect)
      {
        var m, failed;
        TurnNext(off, |src|, readable, tot, turns);
        m, failed, panic, last := WriteTurn(ip, src, off, tot, readable, b0, t0, f0, l0, data, indirect);
        if panic {
          return tot, true, 0, {};
        }
        OneMoreElement(data, last);
        data, turns := data + {last}, turns + 1;
        indirect := indirect || (off + tot) / BSIZE >= NDIRECT;
        if failed {
          break;
        }
        tot := tot + m;
      }
      touched := if indirect then data + {Indirect(ip)} else data;
    }

    /** The end of writei: raise the size if the write went past it. */
    method RaiseSize(ip: nat, off: nat, ghost src: seq<byte>, tot: nat, ghost b0: seq<Block>, ghost t0: seq<Inode>,
                     ghost f0: seq<File>)
      requires Writing(ip, off, src, tot, b0, t0, f0)
      modifies this`itable, this`files
      ensures Locked(ip) && Valid(itable[ip].inum) && |itable| == |t0|
      ensures itable == t0[ip := t0[ip].(addrs := itable[ip].addrs, size := itable[ip].size)]
      ensures itable[ip].size == if off + tot > old(itable)[ip].size then off + tot else old(itable)[ip].size
      ensures |files| == |f0| && itable[ip].inum < |f0| && FileOk(b0, f0[itable[ip].inum])
      ensures off <= f0[itable[ip].inum].size && tot <= |src|
      ensures Contents(blocks, files[itable[ip].inum])
           == Overwritten(Contents(b0, f0[itable[ip].inum]), off, src[..tot])
      ensures forall j | 0 <= j < |files| && j != itable[ip].inum ::
                files[j] == f0[j] && FileOk(b0, f0[j]) && Contents(blocks, files[j]) == Contents(b0, f0[j])
      ensures forall p, a | old(MappedTo(p, a, ip)) :: MappedTo(p, a, ip)
    {
      hide Consistent, Contents, FileOk, ByteWritten;
      ghost var i := itable[ip].inum;
      EntryBasics(sb, blocks, files, owner, inuse, itable, i, {}, ip);
      ProgressEnd(b0, f0, blocks, files, i, off, src, tot);
      if off + tot > itable[ip].size {
        SizeSet(sb, blocks, files, owner, inuse, itable, ip, off + tot);
        itable := itable[ip := itable[ip].(size := off + tot)];
        files := files[i := files[i].(size := off + tot)];
      }
    }

    /** Between operations, a writei of src at off to ip wrote r bytes since the state (b0, t0, f0), if the blocks were
        those of clean. */
    ghost predicate Wrote(clean: seq<Block>, ip: nat, off: nat, src: seq<byte>, r: nat, b0: seq<Block>, t0: seq<Inode>,
                          f0: seq<File>)
      reads this
    {
      && Settled(clean) && Locked(ip) && Rewritten(ip, off, src, r, b0, t0, f0, clean, itable, files)
      && InodesKept(sb, b0, clean, itable[ip].inum)
    }

    /** writei after its range checks. */
    method WriteInRange(ip: nat, src: seq<byte>, off: nat, readable: nat)
      returns (r: nat, panic: bool, last: nat, ghost touched: set<nat>)
      requires Valid(-1) && Locked(ip) && itable[ip].kind != 0 && off <= itable[ip].size
               && off + |src| <= MAXFILE * BSIZE
      modifies this`blocks, this`itable, this`files, this`owner, this`inuse, this`logged
      ensures panic ==> Full(sb, blocks) && old(itable)[ip].size < off + |src|
      ensures !panic ==>
                && Copied(off, |src|, readable, r)
                && Wrote(blocks, ip, off, src, r, old(blocks), old(itable), old(files))
                && LoggedOnly(old(logged), touched) && |touched| <= Spanned(off, |src|) + 2
                && (r < |src| ==> MappedTo(off + r, last, ip))
                && (r < |src| && last in logged && last !in old(logged) ==> itable[ip].size <= off + r)
    {
      hide Consistent, Rewritten, Full, Progress, MappedTo, LoggedIn, Copied, Spanned;
      Opened(sb, blocks, files, owner, inuse, itable, ip);
      r, panic, last, touched := WriteBlocks(ip, src, off, readable);
      if !panic {
        ghost var l1, size := logged, itable[ip].size;
        assert r < |src| && last in l1 && last !in old(logged) ==> size <= off + r;
        WriteBack(ip, off, src, r, last, old(blocks), old(itable), old(files));
        NotTheInode(ip, off + r, last);
        assert r < |src| && last in logged ==> last in l1;
        assert size <= off + r ==> itable[ip].size == off + r;
        OneMoreElement(touched, sb.IBlock(itable[ip].inum));
        touched := touched + {sb.IBlock(itable[ip].inum)};
      }
    }

    /** The end of writei: the size, and iupdate. */
    method WriteBack(ip: nat, off: nat, ghost src: seq<byte>, tot: nat, ghost last: nat, ghost b0: seq<Block>,
                     ghost t0: seq<Inode>, ghost f0: seq<File>)
      requires Writing(ip, off, src, tot, b0, t0, f0) && itable[ip].kind != 0
      modifies this`blocks, this`itable, this`files, this`logged
      ensures Wrote(blocks, ip, off, src, tot, b0, t0, f0)
      ensures itable[ip].size == if off + tot > old(itable)[ip].size then off + tot else old(itable)[ip].size
      ensures logged == old(logged) + {sb.IBlock(itable[ip].inum)}
      ensures old(MappedTo(off + tot, last, ip)) ==> MappedTo(off + tot, last, ip)
    {
      hide Bits, Links, Synced, TableOk, Contents, ByteWritten;
      RaiseSize(ip, off, src, tot, b0, t0, f0);
      ghost var b1 := blocks;
      assert old(MappedTo(off + tot, last, ip)) ==> MappedTo(off + tot, last, ip);
      Iupdate(ip);
      assert old(MappedTo(off + tot, last, ip)) ==>
          KeepsBlock(b1, files[itable[ip].inum], blocks, files[itable[ip].inum], (off + tot) / BSIZE);
      AllMappedExtends(b1, files, blocks, files);
      EntryBasics(sb, blocks, files, owner, inuse, itable, -1, {}, ip);
    }

    lemma NotTheInode(ip: nat, p: nat, last: nat)
      requires Valid(-1) && Locked(ip)
      ensures MappedTo(p, last, ip) ==> last != sb.IBlock(itable[ip].inum)
    {
      hide Synced;
      if MappedTo(p, last, ip) {
        TornIsData(sb, blocks, files, owner, inuse, itable, itable[ip].inum, p);
      }
    }

    /** What a failed copy leaves in the buffer of the block that it was for, which is then released without log_write.
        The inode is written back afterwards, but to another block. */
    method Tear(ip: nat, addr: nat, p: nat, data: seq<byte>)
      requires Valid(-1) && MappedTo(p, addr, ip) && p % BSIZE + |data| <= BSIZE
      modifies this`blocks
      ensures Torn(old(blocks), blocks, files[itable[ip].inum], p, data)
      ensures FileOk(old(blocks), files[itable[ip].inum]) && p < MAXFILE * BSIZE
      ensures addr == Slot(old(blocks), files[itable[ip].inum], DataSlot(p / BSIZE))
    {
      TornIsData(sb, blocks, files, owner, inuse, itable, itable[ip].inum, p);
      blocks := blocks[addr := Splice(blocks[addr], p % BSIZE, data)];
      if data == [] {
        assert Splice(old(blocks)[addr], p % BSIZE, data).bytes == old(blocks)[addr].bytes;
      }
    }

    /** What is left of a failed copy that has brought in data for position p, in block addr, where b is the state
        before: it goes to the disk with the transaction if the block is new in it, and then it lies past the end of the
        file. */
    lemma Settle(ip: nat, p: nat, addr: nat, data: seq<byte>, b: seq<Block>, before: set<nat>)
      returns (clean: seq<Block>, torn: seq<byte>)
      requires Settled(b) && Locked(ip) && Torn(b, blocks, files[itable[ip].inum], p, data) && p <= itable[ip].size
      requires data != [] ==> addr == Slot(b, files[itable[ip].inum], DataSlot(p / BSIZE))
      requires addr in logged && addr !in before ==> itable[ip].size <= p
      ensures Settled(clean) && Torn(clean, blocks, files[itable[ip].inum], p, torn)
      ensures torn == data || (torn == [] && files[itable[ip].inum].size <= p)
      ensures forall k | k in logged && k !in before && k < |blocks| :: k < |clean| && clean[k] == blocks[k]
      ensures |clean| == |b| && FilesOk(b, files) && FilesOk(clean, files)
      ensures forall j | 0 <= j < |files| :: Contents(clean, files[j]) == Contents(b, files[j])
      ensures InodesKept(sb, b, clean, -1)
    {
      hide Bits, Links, Synced, TableOk, Contents, InodesKept;
      Basics(sb, b, files, owner, inuse, itable, -1, {});
      EntryBasics(sb, b, files, owner, inuse, itable, -1, {}, ip);
      var i := itable[ip].inum;
      if data != [] && addr in logged && addr !in before {
        clean, torn := blocks, [];
        TornContents(sb, b, blocks, files, owner, inuse, itable, i, p, data);
        Basics(sb, blocks, files, owner, inuse, itable, -1, {});
        ContentsSize(b, files[i]);
        PatchedPastEnd(Contents(b, files[i]), data);
        TornIsData(sb, b, files, owner, inuse, itable, i, p);
      } else {
        clean, torn := b, data;
      }
      InodesSame(sb, b, clean);
    }

    /** writei. Refused writes change nothing. clean are the blocks that a commit would leave on the disk: of them the
        content is as promised, and every change to them has been logged. What is left of a failed copy is torn. */
    method Writei(ip: nat, src: seq<byte>, off: nat, readable: nat)
      returns (r: int, panic: bool, ghost touched: set<nat>, ghost clean: seq<Block>, ghost torn: seq<byte>)
      requires Valid(-1) && Locked(ip) && itable[ip].kind != 0 && off < WORDLIMIT && |src| < WORDLIMIT
      modifies this`blocks, this`itable, this`files, this`owner, this`inuse, this`logged
      ensures panic ==> Full(sb, blocks) && old(itable)[ip].size < off + |src|
      ensures !panic ==> (r < 0 <==> off > old(itable)[ip].size || off + |src| >= WORDLIMIT
                                     || off + |src| > MAXFILE * BSIZE)
      ensures !panic && r < 0 ==> r == -1 && unchanged(this) && clean == blocks && torn == []
      ensures !panic && r >= 0 ==>
                && Copied(off, |src|, readable, r)
                && Wrote(clean, ip, off, src, r, old(blocks), old(itable), old(files))
                && Torn(clean, blocks, files[itable[ip].inum], off + r, torn)
                && (torn == HalfCopied(src, readable, r)
                    || (torn == [] && files[itable[ip].inum].size <= off + r))
                && AsPromised(ip, off, src, readable, r, old(blocks), old(files), blocks, itable, files)
      ensures !panic ==> forall k | k in logged && k !in old(logged) && k < |blocks| ::
                  k < |clean| && clean[k] == blocks[k]
      ensures !panic ==> LoggedOnly(old(logged), touched) && |touched| <= Spanned(off, |src|) + 2
    {
      hide Consistent, Rewritten, Full, MappedTo, Copied, LoggedIn, AsPromised, InodesKept;
      var n := |src|;
      clean, torn := blocks, [];
      if off > itable[ip].size || (off + n) % WORDLIMIT < off {
        return -1, false, {}, blocks, [];
      }
      if off + n > MAXFILE * BSIZE {
        return -1, false, {}, blocks, [];
      }
      var last;
      r, panic, last, touched := WriteInRange(ip, src, off, readable);
      clean := blocks;
      if !panic && r < n {
        HalfCopiedFits(off, src, readable, r);
        ghost var b1, data := blocks, HalfCopied(src, readable, r);
        WrittenSize(ip, off, src, r, old(blocks), old(itable), old(files), b1, itable, files);
        Tear(ip, last, off + r, HalfCopied(src, readable, r));
        clean, torn := Settle(ip, off + r, last, data, b1, old(logged));
        SameContents(ip, off, src, r, old(blocks), old(itable), old(files), b1, clean, itable, files);
        InodesKeptTrans(sb, old(blocks), b1, clean, itable[ip].inum);
      }
      if !panic {
        TornExactly(sb, clean, blocks, files, owner, inuse, itable, ip, off, src, readable, r, old(blocks),
                    old(itable), old(files), torn);
      }
    }

    /** One turn of readi's loop: bmap finds the block, so nothing changes. */
    method ReadTurn(ip: nat, off: nat, n: nat, tot: nat) returns (chunk: seq<byte>)
      requires Valid(-1) && Locked(ip) && tot < n && off + n <= itable[ip].size
      modifies this`blocks, this`itable, this`files, this`owner, this`inuse, this`logged
      ensures unchanged(this)
      ensures |chunk| == ChunkSize(off, n, tot)
      ensures chunk == Contents(blocks, files[itable[ip].inum])[off + tot..off + tot + |chunk|]
    {
      ghost var i := itable[ip].inum;
      var cur, m := off + tot, ChunkSize(off, n, tot);
      ChunkRead(sb, blocks, files, owner, i, cur, m);
      var addr, panic := Bmap(ip, cur / BSIZE);
      chunk := blocks[addr].bytes[cur % BSIZE..cur % BSIZE + m];
    }

    /** The loop of readi. The first writable bytes of the destination can be copied to. */
    method ReadBlocks(ip: nat, off: nat, n: nat, writable: nat) returns (failed: bool, dst: seq<byte>)
      requires Valid(-1) && Locked(ip) && off + n <= itable[ip].size
      modifies this`blocks, this`itable, this`files, this`owner, this`inuse, this`logged
      ensures unchanged(this)
      ensures failed <==> n > writable
      ensures dst == Contents(blocks, files[itable[ip].inum])[off..off + if failed then writable else n]
    {
      hide Consistent, Contents, FileOk;
      EntryBasics(sb, blocks, files, owner, inuse, itable, -1, {}, ip);
      ContentsSize(blocks, files[itable[ip].inum]);
      ghost var c := Contents(blocks, files[itable[ip].inum]);
      dst := [];
      var tot := 0;
      while tot < n
        invariant 0 <= tot <= n && (tot <= writable || tot == 0) && unchanged(this)
        invariant dst == c[off..off + tot]
      {
        var chunk := ReadTurn(ip, off, n, tot);
        if tot + |chunk| > writable {
          SlicePart(c, off, tot, |chunk|, writable - tot);
          return true, dst + chunk[..writable - tot];
        }
        SliceStep(c, off, off + tot, off + tot + |chunk|);
        dst := dst + chunk;
        tot := tot + |chunk|;
      }
      failed := false;
    }

    /** readi: the slice of the content that is asked for, clipped at the end of the file; a failed copy gives -1, and
        has filled the destination as far as it can be written. It allocates nothing and changes nothing. */
    method Readi(ip: nat, off: nat, n: nat, writable: nat) returns (r: int, dst: seq<byte>)
      requires Valid(-1) && Locked(ip) && off < WORDLIMIT && n < WORDLIMIT
      modifies this`blocks, this`itable, this`files, this`owner, this`inuse, this`logged
      ensures unchanged(this)
      ensures off > itable[ip].size || off + n >= WORDLIMIT ==> r == 0 && dst == []
      ensures off <= itable[ip].size && off + n < WORDLIMIT ==>
                var end := if off + n > itable[ip].size then itable[ip].size else off + n;
                && (r >= 0 <==> end - off <= writable)
                && (r >= 0 ==> r == end - off && dst == Contents(blocks, files[itable[ip].inum])[off..end])
                && (r < 0 ==> r == -1 && dst == Contents(blocks, files[itable[ip].inum])[off..off + writable])
    {
      if off > itable[ip].size || (off + n) % WORDLIMIT < off {
        return 0, [];
      }
      var left := n;
      if off + n > itable[ip].size {
        left := itable[ip].size - off;
      }
      var failed;
      failed, dst := ReadBlocks(ip, off, left, writable);
      r := if failed then -1 else left;
    }

    /** bfree: clear the block's bit; a panic if it is clear already. */
    method Bfree(b: nat) returns (panic: bool)
      requires Bits(sb, blocks, inuse) && AllLogged() && sb.IsData(b)
      modifies this`blocks, this`logged, this`inuse
      ensures AllLogged()
      ensures panic <==> b !in old(inuse)
      ensures panic ==> unchanged(this)
      ensures |blocks| == |old(blocks)| && forall k | 0 <= k < |blocks| && !sb.IsBitmapBlock(k) ::
                blocks[k] == old(blocks)[k]
      ensures inuse == old(inuse) - {b} && Bits(sb, blocks, inuse)
    {
      var k, bi := sb.BBlock(b), b % BPB;
      if !BitAt(blocks[k], bi) {
        return true;
      }
      MarkBit(sb, blocks, inuse, b, false);
      Put(k, PutBit(blocks[k], bi, false));
      inuse := inuse - {b};
      panic := false;
    }

    /** The middle of itrunc of inode i: the slots still hold what they held, but the blocks of freed are no longer
        marked. */
    ghost predicate Freeing(b0: seq<Block>, freed: set<nat>)
      reads this
    {
      && Bits(sb, blocks, inuse) && AllLogged() && Links(sb, blocks, files, owner) && inuse == owner.Keys - freed
      && |blocks| == |b0| && sb.Fits(b0) && forall k | 0 <= k < |blocks| && !sb.IsBitmapBlock(k) :: blocks[k] == b0[k]
    }

    /** if(slot s) bfree(it): the panic in bfree is out of reach. */
    method FreeSlot(ghost b0: seq<Block>, ghost freed: set<nat>, b: nat)
      requires Freeing(b0, freed) && (b != 0 ==> b in owner && b !in freed)
      modifies this`blocks, this`logged, this`inuse
      ensures Freeing(b0, freed + Held(b))
    {
      if b != 0 {
        assert OwnerHolds(sb, blocks, files, owner, b);
        var panic := Bfree(b);
        forall k | k in owner && k < |blocks|
          ensures blocks[k] == old(blocks)[k]
        {
          assert OwnerHolds(sb, old(blocks), files, owner, k);
        }
        LinksFrame(sb, old(blocks), blocks, files, owner);
      }
    }

    /** The first loop of itrunc: free and clear the direct entries. */
    method FreeDirect(ip: nat, ghost i: nat, ghost b0: seq<Block>)
      requires ip < |itable| && i < |files| && Freeing(b0, {}) && itable[ip].addrs == files[i].addrs
      modifies this`blocks, this`logged, this`inuse, this`itable
      ensures Freeing(b0, FreedSlots(owner, i, NDIRECT, NDIRECT + 1)) && |itable| == |old(itable)|
      ensures itable == old(itable)[ip := old(itable)[ip].(addrs := itable[ip].addrs)]
              && Cleared(itable[ip].addrs, files[i].addrs, NDIRECT)
    {
      assert FileOk(blocks, files[i]);
      assert FreedSlots(owner, i, 0, NDIRECT + 1) == {};
      ghost var t0 := itable;
      var s := 0;
      while s < NDIRECT
        invariant 0 <= s <= NDIRECT && Freeing(b0, FreedSlots(owner, i, s, NDIRECT + 1))
        invariant |itable| == |t0| && itable == t0[ip := t0[ip].(addrs := itable[ip].addrs)]
                  && Cleared(itable[ip].addrs, files[i].addrs, s)
      {
        FreedDirect(sb, blocks, files, owner, i, s);
        FreeSlot(b0, FreedSlots(owner, i, s, NDIRECT + 1), itable[ip].addrs[s]);
        itable := itable[ip := itable[ip].(addrs := itable[ip].addrs[s := 0])];
        s := s + 1;
      }
    }

    /** The second loop of itrunc: free the blocks of the indirect entries. */
    method FreeEntries(ind: nat, ghost i: nat, ghost b0: seq<Block>)
      requires i < |files| && Freeing(b0, FreedSlots(owner, i, NDIRECT, NDIRECT + 1))
               && |files[i].addrs| == NDIRECT + 1 && ind == files[i].addrs[NDIRECT] != 0
      modifies this`blocks, this`logged, this`inuse
      ensures Freeing(b0, FreedSlots(owner, i, NDIRECT, SLOTS))
    {
      var j := 0;
      while j < NINDIRECT
        invariant 0 <= j <= NINDIRECT && Freeing(b0, FreedSlots(owner, i, NDIRECT, NDIRECT + 1 + j))
      {
        assert FileOk(blocks, files[i]);
        FreedEntry(sb, blocks, files, owner, i, j);
        FreeSlot(b0, FreedSlots(owner, i, NDIRECT, NDIRECT + 1 + j), WordAt(blocks[ind], j));
        j := j + 1;
      }
    }

    /** itrunc up to its iupdate: free every block of the inode, and clear its entries and size. */
    method FreeAll(ip: nat, ghost i: nat, ghost b0: seq<Block>)
      requires ip < |itable| && i < |files| && Freeing(b0, {}) && itable[ip].addrs == files[i].addrs
      modifies this`blocks, this`logged, this`inuse, this`itable
      ensures Freeing(b0, BlocksOf(owner, i))
      ensures |itable| == |old(itable)|
      ensures itable == old(itable)[ip := old(itable)[ip].(size := 0, addrs := Zeros(NDIRECT + 1))]
    {
      FreeDirect(ip, i, b0);
      var ind := itable[ip].addrs[NDIRECT];
      AllFreed(sb, blocks, files, owner, i);
      if ind != 0 {
        FreeEntries(ind, i, b0);
        FreeSlot(b0, FreedSlots(owner, i, NDIRECT, SLOTS), ind);
        itable := itable[ip := itable[ip].(addrs := itable[ip].addrs[NDIRECT := 0])];
      }
      itable := itable[ip := itable[ip].(size := 0)];
      assert itable[ip].addrs == Zeros(NDIRECT + 1);
    }

    /** itrunc: the inode loses all its blocks, exactly those are freed, and no other inode changes. */
    method Itrunc(ip: nat)
      requires Valid(-1) && Locked(ip)
      modifies this`blocks, this`itable, this`files, this`owner, this`inuse, this`logged
      ensures Valid(-1) && Locked(ip)
      ensures |itable| == |old(itable)|
      ensures itable == old(itable)[ip := old(itable)[ip].(size := 0, addrs := Zeros(NDIRECT + 1))]
      ensures owner == old(owner) - BlocksOf(old(owner), itable[ip].inum)
              && inuse == old(inuse) - BlocksOf(old(owner), itable[ip].inum)
      ensures files == old(files)[itable[ip].inum := EmptyFile()]
      ensures forall j | 0 <= j < |files| && j != itable[ip].inum ::
                Contents(blocks, files[j]) == Contents(old(blocks), old(files)[j])
      ensures InodesKept(sb, old(blocks), blocks, itable[ip].inum)
    {
      hide Bits, Links, Synced, TableOk, Contents, BlocksOf, InodesKept;
      Basics(sb, blocks, files, owner, inuse, itable, -1, {});
      EntryBasics(sb, blocks, files, owner, inuse, itable, -1, {}, ip);
      assert inuse == owner.Keys;
      ghost var i, t0 := itable[ip].inum, itable;
      FreeAll(ip, i, blocks);
      Truncated(sb, old(blocks), blocks, files, owner, inuse, t0, ip);
      owner := owner - BlocksOf(owner, i);
      files := files[i := EmptyFile()];
      ghost var b1 := blocks;
      InodesSame(sb, old(blocks), b1);
      Iupdate(ip);
      AllMappedExtends(b1, files, blocks, files);
      InodesKeptTrans(sb, old(blocks), b1, blocks, i);
    }

    /** iget: the table entry for an inode, found or recycled, with one more reference. */
    method Iget(inum: nat) returns (ip: nat, panic: bool)
      requires Valid(-1) && inum < sb.ninodes
      modifies this`itable
      ensures panic ==> unchanged(this) && forall e | 0 <= e < |itable| :: itable[e].refs > 0 && itable[e].inum != inum
      ensures !panic ==> Valid(-1) && ip < |itable| && itable[ip].inum == inum && |itable| == |old(itable)|
      ensures !panic && old(itable)[ip].refs > 0 ==>
                itable == old(itable)[ip := old(itable)[ip].(refs := old(itable)[ip].refs + 1)]
                && old(itable)[ip].inum == inum
      ensures !panic && old(itable)[ip].refs == 0 ==>
                && itable == old(itable)[ip := old(itable)[ip].(inum := inum, refs := 1, valid := false)]
                && forall e | 0 <= e < |itable| && old(itable)[e].refs > 0 :: old(itable)[e].inum != inum
    {
      var empty;
      ip, empty := FindInode(inum);
      panic := false;
      if ip < |itable| {
        itable := itable[ip := itable[ip].(refs := itable[ip].refs + 1)];
      } else if empty == |itable| {
        panic := true;
      } else {
        ip := empty;
        itable := itable[ip := itable[ip].(inum := inum, refs := 1, valid := false)];
      }
    }

    /** The loop of iget: the entry in use for inum, or the length of the table; and the first free entry met on the
        way. */
    method FindInode(inum: nat) returns (ip: nat, empty: nat)
      ensures ip <= |itable| && empty <= |itable|
      ensures ip < |itable| ==> itable[ip].refs > 0 && itable[ip].inum == inum
      ensures ip == |itable| ==> forall e | 0 <= e < |itable| && itable[e].refs > 0 :: itable[e].inum != inum
      ensures empty < |itable| ==> itable[empty].refs == 0
      ensures ip == empty == |itable| ==> forall e | 0 <= e < |itable| :: itable[e].refs > 0
    {
      empty := |itable|;
      ip := 0;
      while ip < |itable|
        invariant 0 <= ip <= |itable| && empty <= |itable| && (empty < |itable| ==> itable[empty].refs == 0)
        invariant forall e | 0 <= e < ip && itable[e].refs > 0 :: itable[e].inum != inum
        invariant empty == |itable| ==> forall e | 0 <= e < ip :: itable[e].refs > 0
      {
        if itable[ip].refs > 0 && itable[ip].inum == inum {
          return;
        }
        if empty == |itable| && itable[ip].refs == 0 {
          empty := ip;
        }
        ip := ip + 1;
      }
    }

    /** ilock, once it has the inode's sleep lock: read the inode from the disk if that has not been done. Panics
        exactly on a free inode. */
    method Ilock(ip: nat) returns (panic: bool)
      requires Valid(-1) && ip < |itable| && itable[ip].refs > 0
      modifies this`itable
      ensures panic <==> !old(itable)[ip].valid && DiskInode(sb, blocks, old(itable)[ip].inum).kind == 0
      ensures !panic ==>
                && Valid(-1) && Locked(ip) && itable[ip].kind != 0 && |itable| == |old(itable)|
                && itable == old(itable)[ip := itable[ip]] && itable[ip].inum == old(itable)[ip].inum
                && itable[ip].refs == old(itable)[ip].refs
                && itable[ip].AsFile() == files[itable[ip].inum]
                && SameMetadata(itable[ip], DiskInode(sb, blocks, itable[ip].inum))
    {
      panic := false;
      if !itable[ip].valid {
        var inum := itable[ip].inum;
        var d := DiskInode(sb, blocks, inum);
        DiskInodeFits(sb, blocks, inum);
        itable := itable[ip := itable[ip].(kind := d.kind, major := d.major, minor := d.minor, nlink := d.nlink,
        size := d.size, addrs := d.addrs, valid := true)];
        if itable[ip].kind == 0 {
          panic := true;
        }
      }
    }

    /** ialloc: the first free inode gets a type and nothing else; it is empty, and no inode's content changes. */
    method Ialloc(kind: nat) returns (ip: nat, panic: bool)
      requires Valid(-1) && 0 < kind < 0x1_0000
      modifies this`blocks, this`logged, this`itable
      ensures !panic ==>
                && Valid(-1) && ip < |itable| && itable[ip].refs > 0 && !itable[ip].valid
                && 0 < itable[ip].inum < sb.ninodes && DiskInode(sb, old(blocks), itable[ip].inum).kind == 0
                && (forall i | 1 <= i < itable[ip].inum :: DiskInode(sb, old(blocks), i).kind != 0)
                && DiskInode(sb, blocks, itable[ip].inum) == Dinode(kind, 0, 0, 0, 0, ZeroWordSeq(NDIRECT + 1))
                && InodesKept(sb, old(blocks), blocks, itable[ip].inum)
                && files[itable[ip].inum] == EmptyFile() && Extends(old(blocks), files, blocks, files)
                && |itable| == |old(itable)| && itable == old(itable)[ip := itable[ip]]
                && (if old(itable)[ip].refs > 0 then
                      itable[ip] == old(itable)[ip].(refs := old(itable)[ip].refs + 1)
                    else
                      && itable[ip] == old(itable)[ip].(inum := itable[ip].inum, refs := 1, valid := false)
                      && forall e | 0 <= e < |itable| && old(itable)[e].refs > 0 ::
                           old(itable)[e].inum != itable[ip].inum)
      ensures panic ==> (forall i | 1 <= i < sb.ninodes :: DiskInode(sb, old(blocks), i).kind != 0)
                        || forall e | 0 <= e < |itable| :: itable[e].refs > 0
    {
      hide Bits, Links, AllMapped, Extends, PutInode, DiskInode, InodesKept;
      Basics(sb, blocks, files, owner, inuse, itable, -1, {});
      var inum := 1;
      while inum < sb.ninodes
        invariant 1 <= inum && unchanged(this)
        invariant forall i | 1 <= i < inum && i < sb.ninodes :: DiskInode(sb, blocks, i).kind != 0
      {
        if DiskInode(sb, blocks, inum).kind == 0 {
          InodeTyped(sb, blocks, files, owner, inuse, itable, inum, kind);
          OneInodeChanged(sb, blocks, inum, NewDinode(kind));
          var k := sb.IBlock(inum);
          Put(k, PutInode(blocks[k], inum % IPB, NewDinode(kind)));
          ip, panic := Iget(inum);
          return;
        }
        inum := inum + 1;
      }
      return 0, true;
    }

    /** iput: drop a reference; the last reference to an inode without links frees the inode and all its blocks. */
    method Iput(ip: nat)
      requires Valid(-1) && ip < |itable| && itable[ip].refs > 0
      modifies this`blocks, this`itable, this`files, this`owner, this`inuse, this`logged
      ensures Valid(-1) && |itable| == |old(itable)|
      ensures var i, gone := old(itable)[ip].inum, old(itable)[ip].refs == 1 && old(itable)[ip].valid
                                                   && old(itable)[ip].nlink == 0;
              && i < |files| == |old(files)|
              && itable == old(itable)[ip := itable[ip]]
              && itable[ip] == (if gone then old(itable)[ip].(kind := 0, size := 0, addrs := Zeros(NDIRECT + 1),
                                             valid := false)
                                else old(itable)[ip]).(refs := old(itable)[ip].refs - 1)
              && InodesKept(sb, old(blocks), blocks, i)
              && (gone ==> DiskInode(sb, blocks, i).kind == 0 && files == old(files)[i := EmptyFile()]
                           && owner == old(owner) - BlocksOf(old(owner), i))
              && (!gone ==> blocks == old(blocks) && files == old(files) && owner == old(owner))
              && (forall j | 0 <= j < |files| && j != i ::
                    Contents(blocks, files[j]) == Contents(old(blocks), old(files)[j]))
    {
      hide Bits, Links, AllMapped, Contents, BlocksOf, DiskInode, InodesKept;
      Basics(sb, blocks, files, owner, inuse, itable, -1, {});
      InodesSame(sb, blocks, blocks);
      InodesKeptTrans(sb, blocks, blocks, blocks, itable[ip].inum);
      if itable[ip].refs == 1 && itable[ip].valid && itable[ip].nlink == 0 {
        FreeInode(ip);
      }
      itable := itable[ip := itable[ip].(refs := itable[ip].refs - 1)];
    }

    /** The part of iput that frees the inode. */
    method FreeInode(ip: nat)
      requires Valid(-1) && Locked(ip)
      modifies this`blocks, this`itable, this`files, this`owner, this`inuse, this`logged
      ensures Valid(-1) && |itable| == |old(itable)|
              && itable == old(itable)[ip := old(itable)[ip].(kind := 0, size := 0, addrs := Zeros(NDIRECT + 1),
                           valid := false)]
      ensures DiskInode(sb, blocks, itable[ip].inum).kind == 0 && InodesKept(sb, old(blocks), blocks, itable[ip].inum)
      ensures files == old(files)[itable[ip].inum := EmptyFile()]
              && owner == old(owner) - BlocksOf(old(owner), itable[ip].inum)
      ensures forall j | 0 <= j < |files| && j != itable[ip].inum ::
                Contents(blocks, files[j]) == Contents(old(blocks), old(files)[j])
    {
      Itrunc(ip);
      ghost var b1 := blocks;
      ClearKind(ip);
      InodesKeptTrans(sb, old(blocks), b1, blocks, itable[ip].inum);
    }

    /** The inode becomes free on the disk, and its table entry is no longer valid. */
    method ClearKind(ip: nat)
      requires Valid(-1) && Locked(ip) && itable[ip].AsFile() == EmptyFile()
      modifies this`blocks, this`logged, this`itable
      ensures Valid(-1) && |itable| == |old(itable)|
              && itable == old(itable)[ip := old(itable)[ip].(kind := 0, valid := false)]
      ensures DiskInode(sb, blocks, itable[ip].inum).kind == 0 && InodesKept(sb, old(blocks), blocks, itable[ip].inum)
      ensures forall j | 0 <= j < |files| :: Contents(blocks, files[j]) == Contents(old(blocks), files[j])
    {
      KindCleared(sb, blocks, files, owner, inuse, itable, ip);
      itable := itable[ip := itable[ip].(kind := 0)];
      Iupdate(ip);
      AllMappedExtends(old(blocks), files, blocks, files);
      EntryForgotten(sb, blocks, files, owner, inuse, itable, ip);
      itable := itable[ip := itable[ip].(valid := false)];
    }
  }

  /** For example: two bytes over a file of two, the second of which cannot be read. writei returns 0, and the first is
      changed. */
  method TornExample(fs: Fs, ip: nat) returns (r: int, panic: bool)
    requires fs.Valid(-1) && fs.Locked(ip) && fs.itable[ip].kind != 0
    requires fs.itable[ip].inum < |fs.files| && FileOk(fs.blocks, fs.files[fs.itable[ip].inum])
    requires Contents(fs.blocks, fs.files[fs.itable[ip].inum]) == [1, 2]
    modifies fs
    ensures !panic && r == 0 && fs.Locked(ip) && fs.itable[ip].inum == old(fs.itable[ip].inum) < |fs.files|
    ensures FileOk(fs.blocks, fs.files[fs.itable[ip].inum])
    ensures Contents(fs.blocks, fs.files[fs.itable[ip].inum]) == [7, 2]
  {
    hide Consistent, Full, Torn, Accounted, AsPromised;
    ghost var i := fs.itable[ip].inum;
    EntryBasics(fs.sb, fs.blocks, fs.files, fs.owner, fs.inuse, fs.itable, -1, {}, ip);
    ContentsSize(fs.blocks, fs.files[i]);
    ghost var touched, clean, torn;
    r, panic, touched, clean, torn := fs.Writei(ip, [7, 8], 0, 1);
    assert Contents(clean, fs.files[i]) == Overwritten([1, 2], 0, [7, 8][..0]) == [1, 2];
    ContentsSize(clean, fs.files[i]);
    assert torn == HalfCopied([7, 8], 1, 0) == [7];
    TornContents(fs.sb, clean, fs.blocks, fs.files, fs.owner, fs.inuse, fs.itable, i, 0, [7]);
    Basics(fs.sb, fs.blocks, fs.files, fs.owner, fs.inuse, fs.itable, -1, {});
    assert Patched([1, 2], true, 0, [7]) == [7, 2];
  }
}
