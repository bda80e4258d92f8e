/** The on-disk format of kernel/fs.h: where the bitmap and the inodes are, and how they are stored. */
module FsLayout {
  import opened Blocks

  const NDIRECT: nat := 12
  const NINDIRECT: nat := WORDS
  const MAXFILE: nat := NDIRECT + NINDIRECT
  const IPB: nat := 16  // BSIZE / sizeof(struct dinode)
  const BPB: nat := 8192  // BSIZE * 8

  /** The fields of the super block that the code here uses. */
  datatype Superblock = Superblock(size: nat, ninodes: nat, inodestart: nat, bmapstart: nat) {
    function IBlock(i: nat): nat {
      i / IPB + inodestart
    }

    function BBlock(b: nat): nat {
      b / BPB + bmapstart
    }

    /** The first data block; mkfs puts the data blocks after the bitmap. */
    function DataStart(): nat {
      bmapstart + size / BPB + 1
    }

    predicate IsInodeBlock(k: int) {
      inodestart <= k < bmapstart
    }

    predicate IsBitmapBlock(k: int) {
      bmapstart <= k < DataStart()
    }

    predicate IsData(k: int) {
      DataStart() <= k < size
    }

    /** The blocks that the file system changes: inodes, bitmap and data. */
    predicate IsManaged(k: int) {
      inodestart <= k < size
    }

    /** The order of the regions on the disk, as mkfs lays them out. Block 0, the boot block, is none of them. */
    predicate Fits(blocks: seq<Block>) {
      && 0 < inodestart && inodestart + ninodes / IPB + 1 <= bmapstart
      && DataStart() <= size <= |blocks| <= WORDLIMIT
    }
  }

  // The free bitmap.

  function Pow2(k: nat): (p: nat)
    ensures p > 0
  {
    if k == 0 then 1 else 2 * Pow2(k - 1)
  }

  /** (x & (1 << k)) != 0: the k-th binary digit of x */
  predicate ByteBit(x: nat, k: nat) {
    if k == 0 then x % 2 == 1 else ByteBit(x / 2, k - 1)
  }

  /** x | (1 << k), or x & ~(1 << k), for a number of width digits */
  function PutByteBit(x: nat, k: nat, v: bool, width: nat): (y: nat)
    requires k < width && x < Pow2(width)
    ensures y < Pow2(width)
  {
    if k == 0 then
      x / 2 * 2 + if v then 1 else 0
    else
      2 * PutByteBit(x / 2, k - 1, v, width - 1) + x % 2
  }

  lemma {:induction false} PutByteBitAt(x: nat, k: nat, v: bool, width: nat, j: nat)
    requires k < width && x < Pow2(width)
    ensures ByteBit(PutByteBit(x, k, v, width), j) == if j == k then v else ByteBit(x, j)
  {
    if k > 0 && j > 0 {
      PutByteBitAt(x / 2, k - 1, v, width - 1, j - 1);
    }
  }

  lemma ByteWidth()
    ensures Pow2(8) == 256
  {
    assert Pow2(4) == 16;
  }

  predicate BitAt(b: Block, bi: nat)
    requires bi < BPB
  {
    ByteBit(b.bytes[bi / 8], bi % 8)
  }

  function PutBit(b: Block, bi: nat, v: bool): (r: Block)
    requires bi < BPB
  {
    ByteWidth();
    RawBlock(b.bytes[bi / 8 := PutByteBit(b.bytes[bi / 8], bi % 8, v, 8)])
  }

  /** Changing one bit of a bitmap block changes no other. */
  lemma PutBitAt(b: Block, bi: nat, v: bool, j: nat)
    requires bi < BPB && j < BPB
    ensures BitAt(PutBit(b, bi, v), j) == if j == bi then v else BitAt(b, j)
  {
    if j / 8 == bi / 8 {
      ByteWidth();
      PutByteBitAt(b.bytes[bi / 8], bi % 8, v, 8, j % 8);
    }
  }

  // Inodes: 16 words each, the first two of which hold two shorts.

  datatype Dinode = Dinode(kind: nat, major: nat, minor: nat, nlink: nat, size: word, addrs: seq<word>) {
    predicate Fits() {
      kind < 0x1_0000 && major < 0x1_0000 && minor < 0x1_0000 && nlink < 0x1_0000 && |addrs| == NDIRECT + 1
    }
  }

  function InodeWords(d: Dinode): (ws: seq<word>)
    requires d.Fits()
  {
    [d.kind + 0x1_0000 * d.major, d.minor + 0x1_0000 * d.nlink, d.size] + d.addrs
  }

  function WordsAt(b: Block, at: nat, n: nat): (ws: seq<word>)
    requires at + n <= WORDS
    ensures |ws| == n && forall i | 0 <= i < n :: ws[i] == WordAt(b, at + i)
  {
    if n == 0 then [] else WordsAt(b, at, n - 1) + [WordAt(b, at + n - 1)]
  }

  function FromWords(ws: seq<word>): (d: Dinode)
    requires |ws| == 16
  {
    Dinode(ws[0] % 0x1_0000, ws[0] / 0x1_0000, ws[1] % 0x1_0000, ws[1] / 0x1_0000, ws[2], ws[3..])
  }

  function InodeAt(b: Block, slot: nat): (d: Dinode)
    requires slot < IPB
  {
    FromWords(WordsAt(b, 16 * slot, 16))
  }

  function PutWords(b: Block, at: nat, ws: seq<word>): (r: Block)
    requires at + |ws| <= WORDS
  {
    if ws == [] then b else PutWord(PutWords(b, at, ws[..|ws| - 1]), at + |ws| - 1, ws[|ws| - 1])
  }

  function PutInode(b: Block, slot: nat, d: Dinode): (r: Block)
    requires slot < IPB && d.Fits()
  {
    PutWords(b, 16 * slot, InodeWords(d))
  }

  lemma {:induction false} PutWordsAt(b: Block, at: nat, ws: seq<word>, j: nat)
    requires at + |ws| <= WORDS && j < WORDS
    ensures WordAt(PutWords(b, at, ws), j) == if at <= j < at + |ws| then ws[j - at] else WordAt(b, j)
  {
    if ws != [] {
      var n := |ws| - 1;
      PutWordsAt(b, at, ws[..n], j);
      PutWordAt(PutWords(b, at, ws[..n]), at + n, ws[n], j);
    }
  }

  lemma PutWordsRange(b: Block, at: nat, ws: seq<word>, from: nat, n: nat)
    requires n == |ws| && at + n <= WORDS && from + n <= WORDS
    requires from == at || from + n <= at || at + n <= from
    ensures WordsAt(PutWords(b, at, ws), from, n) == if from == at then ws else WordsAt(b, from, n)
  {
    hide PutWords, WordAt, WordsAt;
    var b' := PutWords(b, at, ws);
    forall i | 0 <= i < n
      ensures WordsAt(b', from, n)[i] == if from == at then ws[i] else WordsAt(b, from, n)[i]
    {
      PutWordsAt(b, at, ws, from + i);
    }
  }

  lemma InodeWordsRoundTrip(d: Dinode)
    requires d.Fits()
    ensures |InodeWords(d)| == 16 && FromWords(InodeWords(d)) == d
  {
    assert InodeWords(d)[3..] == d.addrs;
  }

  /** An inode reads back as written, and the other inodes of the block are untouched. */
  lemma PutInodeAt(b: Block, slot: nat, d: Dinode, other: nat)
    requires slot < IPB && other < IPB && d.Fits()
    ensures InodeAt(PutInode(b, slot, d), other) == if other == slot then d else InodeAt(b, other)
  {
    InodeWordsRoundTrip(d);
    PutWordsRange(b, 16 * slot, InodeWords(d), 16 * other, 16);
  }

  // Where each field is, in bytes.

  /** An inode takes 64 bytes, with its fields in the order of struct dinode and without gaps. */
  lemma DinodeLayout(b: Block, slot: nat)
    requires slot < IPB
    ensures 64 * slot + 64 <= BSIZE
    ensures var d, at := InodeAt(b, slot), 64 * slot;
            && d.kind == NumberAt(b, at, 2) && d.major == NumberAt(b, at + 2, 2)
            && d.minor == NumberAt(b, at + 4, 2) && d.nlink == NumberAt(b, at + 6, 2)
            && d.size == NumberAt(b, at + 8, 4) && |d.addrs| == NDIRECT + 1
            && forall s | 0 <= s <= NDIRECT :: d.addrs[s] == NumberAt(b, at + 12 + 4 * s, 4)
  {
    hide NumberAt, WordAt;
    NumberWord(b, 16 * slot);
    NumberWord(b, 16 * slot + 1);
    NumberWord(b, 16 * slot + 2);
    forall s | 0 <= s <= NDIRECT
      ensures WordAt(b, 16 * slot + 3 + s) == NumberAt(b, 64 * slot + 12 + 4 * s, 4)
    {
      NumberWord(b, 16 * slot + 3 + s);
    }
  }

  /** Bit bi of a bitmap block is bit bi % 8, counted from the lowest, of byte bi / 8. */
  lemma BitLayout(b: Block, bi: nat)
    requires bi < BPB
    ensures BitAt(b, bi) <==> b.bytes[bi / 8] / Pow2(bi % 8) % 2 == 1
  {
    BitByDivision(b.bytes[bi / 8], bi % 8);
  }

  lemma {:induction false} BitByDivision(x: nat, k: nat)
    ensures ByteBit(x, k) <==> x / Pow2(k) % 2 == 1
  {
    if k > 0 {
      BitByDivision(x / 2, k - 1);
      HalfFirst(x, Pow2(k - 1));
    }
  }

  lemma HalfFirst(x: nat, p: nat)
    requires p > 0
    ensures x / 2 / p == x / (2 * p)
  {
    var q, m := x / 2 / p, x / 2 % p;
    assert x == 2 * p * q + (2 * m + x % 2);
    DivisionIs(x, 2 * p, q, 2 * m + x % 2);
  }

  lemma DivisionIs(x: nat, d: nat, q: nat, m: nat)
    requires x == d * q + m && m < d
    ensures x / d == q
  {
    assert d * (x / d - q) == m - x % d;
    Multiples(d, x / d - q);
  }

  lemma Multiples(d: nat, k: int)
    ensures (k >= 1 ==> d * k >= d) && (k <= -1 ==> d * k + d <= 0)
  {
  }

  // Views of the whole disk.

  /** Is block b in use, as the bitmap has it? */
  predicate Used(sb: Superblock, blocks: seq<Block>, b: nat)
    requires sb.Fits(blocks) && b < sb.size
  {
    BitAt(blocks[sb.BBlock(b)], b % BPB)
  }

  function DiskInode(sb: Superblock, blocks: seq<Block>, i: nat): (d: Dinode)
    requires sb.Fits(blocks) && i < sb.ninodes
  {
    InodeAt(blocks[sb.IBlock(i)], i % IPB)
  }

  /** Writing a bitmap bit marks one block and changes nothing else that the bitmap says. */
  lemma UsedAfterPutBit(sb: Superblock, blocks: seq<Block>, b: nat, v: bool, x: nat)
    requires sb.Fits(blocks) && b < sb.size && x < sb.size
    ensures var k := sb.BBlock(b);
            && sb.IsBitmapBlock(k) && k < |blocks|
            && Used(sb, blocks[k := PutBit(blocks[k], b % BPB, v)], x) == if x == b then v else Used(sb, blocks, x)
  {
    if sb.BBlock(x) == sb.BBlock(b) {
      PutBitAt(blocks[sb.BBlock(b)], b % BPB, v, x % BPB);
      assert x % BPB == b % BPB ==> x == b;
    }
  }

  lemma UsedElsewhere(sb: Superblock, blocks: seq<Block>, blocks': seq<Block>, x: nat)
    requires sb.Fits(blocks) && |blocks'| == |blocks| && x < sb.size
    requires forall k | 0 <= k < |blocks| && sb.IsBitmapBlock(k) :: blocks'[k] == blocks[k]
    ensures Used(sb, blocks', x) == Used(sb, blocks, x)
  {
    assert sb.IsBitmapBlock(sb.BBlock(x));
  }

  /** Writing one inode changes no other. */
  lemma InodeAfterPut(sb: Superblock, blocks: seq<Block>, i: nat, d: Dinode, j: nat)
    requires sb.Fits(blocks) && i < sb.ninodes && j < sb.ninodes && d.Fits()
    ensures var k := sb.IBlock(i);
            && sb.IsInodeBlock(k) && k < |blocks|
            && DiskInode(sb, blocks[k := PutInode(blocks[k], i % IPB, d)], j) == if j == i then d
                                                                                 else DiskInode(sb, blocks, j)
  {
    if sb.IBlock(j) == sb.IBlock(i) {
      PutInodeAt(blocks[sb.IBlock(i)], i % IPB, d, j % IPB);
      assert j % IPB == i % IPB ==> j == i;
    }
  }

  lemma InodeElsewhere(sb: Superblock, blocks: seq<Block>, blocks': seq<Block>, j: nat)
    requires sb.Fits(blocks) && |blocks'| == |blocks| && j < sb.ninodes
    requires forall k | 0 <= k < |blocks| && sb.IsInodeBlock(k) :: blocks'[k] == blocks[k]
    ensures DiskInode(sb, blocks', j) == DiskInode(sb, blocks, j)
  {
    assert sb.IsInodeBlock(sb.IBlock(j));
  }

  /** The inodes on the disk, but for inode i, are as they were. */
  predicate InodesKept(sb: Superblock, blocks: seq<Block>, blocks': seq<Block>, i: int) {
    && sb.Fits(blocks) && |blocks'| == |blocks|
    && forall j | 0 <= j < sb.ninodes && j != i :: DiskInode(sb, blocks', j) == DiskInode(sb, blocks, j)
  }

  /** No more than the size and the addresses of inode i has changed on the disk. */
  predicate OnlyExtent(sb: Superblock, blocks: seq<Block>, blocks': seq<Block>, i: nat) {
    && InodesKept(sb, blocks, blocks', i) && i < sb.ninodes
    && var d, d' := DiskInode(sb, blocks, i), DiskInode(sb, blocks', i);
    d' == d.(size := d'.size, addrs := d'.addrs)
  }

  lemma InodesSame(sb: Superblock, blocks: seq<Block>, blocks': seq<Block>)
    requires sb.Fits(blocks) && |blocks'| == |blocks|
    requires forall k | 0 <= k < |blocks| && sb.IsInodeBlock(k) :: blocks'[k] == blocks[k]
    ensures InodesKept(sb, blocks, blocks', -1)
  {
    hide DiskInode;
    forall j | 0 <= j < sb.ninodes
      ensures DiskInode(sb, blocks', j) == DiskInode(sb, blocks, j)
    {
      InodeElsewhere(sb, blocks, blocks', j);
    }
  }

  lemma OneInodeChanged(sb: Superblock, blocks: seq<Block>, i: nat, d: Dinode)
    requires sb.Fits(blocks) && i < sb.ninodes && d.Fits()
    ensures var k := sb.IBlock(i);
            && sb.IsInodeBlock(k) && k < |blocks|
            && var blocks' := blocks[k := PutInode(blocks[k], i % IPB, d)];
            InodesKept(sb, blocks, blocks', i) && DiskInode(sb, blocks', i) == d
  {
    hide DiskInode, PutInode;
    InodeAfterPut(sb, blocks, i, d, i);
    var k := sb.IBlock(i);
    var blocks' := blocks[k := PutInode(blocks[k], i % IPB, d)];
    forall j | 0 <= j < sb.ninodes && j != i
      ensures DiskInode(sb, blocks', j) == DiskInode(sb, blocks, j)
    {
      InodeAfterPut(sb, blocks, i, d, j);
    }
  }

  lemma InodesKeptTrans(sb: Superblock, b0: seq<Block>, b1: seq<Block>, b2: seq<Block>, i: int)
    requires InodesKept(sb, b0, b1, i) || InodesKept(sb, b0, b1, -1)
    requires InodesKept(sb, b1, b2, i) || InodesKept(sb, b1, b2, -1)
    ensures InodesKept(sb, b0, b2, i)
  {
    hide DiskInode;
  }
}
