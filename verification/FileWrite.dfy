/** filewrite's loop over an inode (kernel/file.c): a write is cut into transactions small enough for the log. */
module FileWrite {
  import opened Blocks
  import opened FsLayout
  import opened FsSpec
  import opened FileSystem
  import LogAdmission
  import LogSpec

  /** max, in bytes: half of what is left of a reservation without the inode, the indirect block and two more. */
  const CHUNK: nat := (LogSpec.MAXOPBLOCKS - 1 - 1 - 2) / 2 * BSIZE

  function BitmapBlocks(sb: Superblock): (n: nat) {
    sb.size / BPB + 1
  }

  /** A chunk lies in at most four blocks, wherever it starts. */
  lemma ChunkSpan(off: nat, n: nat)
    requires n <= CHUNK
    ensures Spanned(off, n) <= 4
  {
    assert off + n - 1 <= off + 3 * BSIZE;
  }

  /** The blocks that a transaction which writes n bytes at off may log: bitmap blocks, and touched ones, which are
      those of the bytes, the inode's block and the indirect block. */
  predicate Covers(sb: Superblock, logged: set<nat>, touched: set<nat>, off: nat, n: nat) {
    && n <= CHUNK && |touched| <= Spanned(off, n) + 2
    && forall k | k in logged :: sb.IsBitmapBlock(k) || k in touched
  }

  ghost predicate Footprint(sb: Superblock, logged: set<nat>) {
    exists touched, off, n :: Covers(sb, logged, touched, off, n)
  }

  lemma TransactionSize(sb: Superblock, logged: set<nat>)
    requires Footprint(sb, logged)
    ensures |logged| <= 6 + BitmapBlocks(sb)
  {
    var touched, off, n :| Covers(sb, logged, touched, off, n);
    ChunkSpan(off, n);
    var maps := set k | k in logged && sb.IsBitmapBlock(k);
    RangeSize(sb.bmapstart, BitmapBlocks(sb), maps);
    SubsetSize(logged, maps + touched);
    assert |maps + touched| == |maps| + |touched| - |maps * touched|;
  }

  /** At any time, what an open operation has passed to log_write is what a transaction of filewrite may log. */
  ghost predicate OnlyWrites(sb: Superblock, run: LogAdmission.Run) {
    && (forall i | 0 <= i < |LogAdmission.Passed(run)| :: Footprint(sb, LogAdmission.Passed(run)[i]))
    && (run.Then? ==> OnlyWrites(sb, run.before))
  }

  lemma {:induction false} WritesAreSmall(sb: Superblock, run: LogAdmission.Run)
    requires OnlyWrites(sb, run)
    ensures LogAdmission.Small(6 + BitmapBlocks(sb), run)
  {
    forall i | 0 <= i < |LogAdmission.Passed(run)|
      ensures |LogAdmission.Passed(run)[i]| <= 6 + BitmapBlocks(sb)
    {
      TransactionSize(sb, LogAdmission.Passed(run)[i]);
    }
    if run.Then? {
      WritesAreSmall(sb, run.before);
    }
  }

  /** However many filewrites run at a time and however their steps interleave: on a disk with at most three bitmap
      blocks log_write never panics on size. */
  lemma WritesFitTheLog(sb: Superblock, run: LogAdmission.Run)
    requires BitmapBlocks(sb) <= 3 && LogAdmission.Possible(LogSpec.MAXOPBLOCKS, run) && OnlyWrites(sb, run)
    ensures !LogAdmission.Panics(LogSpec.MAXOPBLOCKS, LogAdmission.Final(run))
  {
    WritesAreSmall(sb, run);
    LogAdmission.PassedExactly(LogSpec.MAXOPBLOCKS, 6 + BitmapBlocks(sb));
  }

  lemma OverwrittenTwice(c: seq<byte>, off: nat, a: seq<byte>, b: seq<byte>)
    requires off <= |c|
    ensures off + |a| <= |Overwritten(c, off, a)|
    ensures Overwritten(Overwritten(c, off, a), off + |a|, b) == Overwritten(c, off, a + b)
  {
  }

  /** What a write of w bytes does, also when the offset lies beyond the end of the file and nothing can be written.
      clean are the blocks that a commit leaves on the disk. */
  ghost predicate Written(fs: Fs, clean: seq<Block>, ip: nat, off: nat, src: seq<byte>, w: nat, b0: seq<Block>,
                          t0: seq<Inode>, f0: seq<File>)
    reads fs
  {
    && ip < |t0| && fs.Settled(clean) && fs.Locked(ip) && fs.itable[ip].kind != 0
    && if off > t0[ip].size then w == 0 && clean == b0 && fs.itable == t0 && fs.files == f0
       else fs.Wrote(clean, ip, off, src, w, b0, t0, f0)
  }

  lemma NothingWritten(fs: Fs, ip: nat, off: nat, src: seq<byte>)
    requires fs.Valid(-1) && fs.Locked(ip) && fs.itable[ip].kind != 0
    ensures Written(fs, fs.blocks, ip, off, src, 0, fs.blocks, fs.itable, fs.files)
  {
    var i := fs.itable[ip].inum;
    assert FileOk(fs.blocks, fs.files[i]);
    if off <= fs.itable[ip].size {
      assert Overwritten(Contents(fs.blocks, fs.files[i]), off, src[..0]) == Contents(fs.blocks, fs.files[i]);
    }
  }

  /** One transaction more. */
  lemma WrittenMore(off: nat, src: seq<byte>, w: nat, r: nat, c0: seq<byte>, c: seq<byte>)
    requires w + r <= |src| && off <= |c0| && c == Overwritten(c0, off, src[..w])
    ensures off + w <= |c| && Overwritten(c, off + w, src[w..][..r]) == Overwritten(c0, off, src[..w + r])
  {
    assert src[..w] + src[w..][..r] == src[..w + r];
    OverwrittenTwice(c0, off, src[..w], src[w..][..r]);
  }

  /** Where the cache holds blocks, a commit of the logged ones leaves the same on the disk as if it held those of
      clean. */
  predicate CommitLeaves(cached: seq<Block>, logged: set<nat>, clean: seq<Block>) {
    |clean| == |cached| && forall k | k in logged && k < |cached| :: clean[k] == cached[k]
  }

  /** The state of the file system between two transactions of a write: the blocks that a commit leaves on the disk and
      those that the cache holds, the files, the blocks that the transaction before has logged, and how many bytes have
      been written so far. */
  datatype Point = Point(blocks: seq<Block>, cached: seq<Block>, files: seq<File>, owner: map<nat, Owner>,
                         logged: set<nat>, written: nat)

  /** A consistent file system in which the first bytes of src are in place, and nothing else differs from (b0, f0), be
      it content or metadata. */
  ghost predicate PointOk(sb: Superblock, p: Point, i: nat, off: nat, src: seq<byte>, b0: seq<Block>, f0: seq<File>) {
    && OnDisk(sb, p.blocks, p.files, p.owner) && FilesOk(b0, f0) && i < |f0| == |p.files| && p.written <= |src|
    && (off > f0[i].size ==> p.written == 0) && OnlyExtent(sb, b0, p.blocks, i)
    && forall j | 0 <= j < |f0| ::
         Contents(p.blocks, p.files[j]) == if j == i && off <= f0[i].size
         then Overwritten(Contents(b0, f0[j]), off, src[..p.written]) else Contents(b0, f0[j])
  }

  /** One transaction leads from p to q. */
  ghost predicate Follows(sb: Superblock, p: Point, q: Point) {
    && p.written <= q.written <= p.written + CHUNK && Footprint(sb, q.logged)
    && Accounted(sb, p.blocks, q.blocks, q.logged) && CommitLeaves(q.cached, q.logged, q.blocks)
  }

  /** The states that a write of src at off passes through. All transactions but the last write a whole chunk. */
  ghost predicate Trail(sb: Superblock, ps: seq<Point>, i: nat, off: nat, src: seq<byte>, b0: seq<Block>,
                        f0: seq<File>) {
    && ps != [] && ps[0].blocks == b0 && ps[0].files == f0 && ps[0].written == 0
    && (forall t | 0 <= t < |ps| :: PointOk(sb, ps[t], i, off, src, b0, f0))
    && (forall t | 0 < t < |ps| :: Follows(sb, ps[t - 1], ps[t]))
    && (forall t | 0 <= t < |ps| - 1 :: ps[t].written == t * CHUNK)
  }

  /** The present state of the file system, with these blocks. */
  ghost function Now(fs: Fs, clean: seq<Block>, w: nat): (p: Point)
    reads fs
  {
    Point(clean, fs.blocks, fs.files, fs.owner, fs.logged, w)
  }

  lemma WrittenPoint(fs: Fs, clean: seq<Block>, ip: nat, off: nat, src: seq<byte>, w: nat, b0: seq<Block>,
                     t0: seq<Inode>, f0: seq<File>)
    requires Written(fs, clean, ip, off, src, w, b0, t0, f0) && FilesOk(b0, f0) && t0[ip].inum < |f0|
    requires t0[ip].size == f0[t0[ip].inum].size && w <= |src|
    requires HasMetadata(fs.sb, b0, t0[ip])
    ensures PointOk(fs.sb, Now(fs, clean, w), t0[ip].inum, off, src, b0, f0)
  {
    hide Bits, Links, Synced, TableOk, AllMapped, Contents, DiskInode;
    CouldStart(fs.sb, clean, fs.files, fs.owner, fs.inuse, fs.itable);
    EntryMetadata(fs.sb, clean, fs.files, fs.owner, fs.inuse, fs.itable, ip);
    Basics(fs.sb, clean, fs.files, fs.owner, fs.inuse, fs.itable, -1, {});
    InodesSame(fs.sb, clean, clean);
  }

  /** The inode on the disk has the metadata of the table entry. */
  predicate HasMetadata(sb: Superblock, blocks: seq<Block>, ip: Inode) {
    sb.Fits(blocks) && ip.inum < sb.ninodes && SameMetadata(ip, DiskInode(sb, blocks, ip.inum))
  }

  lemma EntryMetadata(sb: Superblock, blocks: seq<Block>, files: seq<File>, owner: map<nat, Owner>, inuse: set<nat>,
                      itable: seq<Inode>, ip: nat)
    requires Consistent(sb, blocks, files, owner, inuse, itable, -1, {})
    requires ip < |itable| && itable[ip].refs > 0 && itable[ip].valid
    ensures HasMetadata(sb, blocks, itable[ip])
  {
    hide Bits, Links, AllMapped, DiskInode;
    Basics(sb, blocks, files, owner, inuse, itable, -1, {});
    assert itable[ip].inum != -1;
  }

  lemma TrailStarts(sb: Superblock, p: Point, i: nat, off: nat, src: seq<byte>, b0: seq<Block>, f0: seq<File>)
    requires PointOk(sb, p, i, off, src, b0, f0) && p.blocks == b0 && p.files == f0 && p.written == 0
    ensures Trail(sb, [p], i, off, src, b0, f0)
  {
  }

  lemma TrailGrows(sb: Superblock, ps: seq<Point>, q: Point, i: nat, off: nat, src: seq<byte>, b0: seq<Block>,
                   f0: seq<File>)
    requires Trail(sb, ps, i, off, src, b0, f0) && PointOk(sb, q, i, off, src, b0, f0)
    requires Follows(sb, ps[|ps| - 1], q) && ps[|ps| - 1].written == (|ps| - 1) * CHUNK
    ensures Trail(sb, ps + [q], i, off, src, b0, f0)
  {
    hide PointOk, Follows;
  }

  /** begin_op, ilock, writei, iunlock, end_op. */
  method WriteTransaction(fs: Fs, ip: nat, off: nat, src: seq<byte>, readable: nat)
    returns (r: int, panic: bool, ghost clean: seq<Block>, ghost torn: seq<byte>)
    requires fs.Valid(-1) && fs.Locked(ip) && fs.itable[ip].kind != 0 && off < WORDLIMIT && |src| <= CHUNK
    modifies fs
    ensures fs.base == old(fs.blocks)
    ensures panic ==> Full(fs.sb, fs.blocks)
    ensures !panic ==> (r < 0 <==> off > old(fs.itable)[ip].size || off + |src| > MAXFILE * BSIZE)
    ensures !panic ==> Footprint(fs.sb, fs.logged)
    ensures !panic && r < 0 ==>
              && r == -1 && fs.blocks == clean == old(fs.blocks) && fs.itable == old(fs.itable)
              && fs.files == old(fs.files) && fs.Valid(-1) && torn == []
    ensures !panic && r >= 0 ==>
              && Copied(off, |src|, readable, r) && fs.Wrote(clean, ip, off, src, r, old(fs.blocks), old(fs.itable),
                                                             old(fs.files))
              && Torn(clean, fs.blocks, fs.files[fs.itable[ip].inum], off + r, torn)
              && (torn != [] ==> torn == HalfCopied(src, readable, r))
    ensures !panic ==> CommitLeaves(fs.blocks, fs.logged, clean)
  {
    hide AsPromised;
    fs.Begin();
    ghost var touched;
    r, panic, touched, clean, torn := fs.Writei(ip, src, off, readable);
    assert !panic ==> Covers(fs.sb, fs.logged, touched, off, |src|);
  }

  /** The transaction after w bytes, put together with what was written before. */
  lemma RewrittenNext(ip: nat, off: nat, src: seq<byte>, w: nat, n: nat, r: nat, b0: seq<Block>, t0: seq<Inode>,
                      f0: seq<File>, b1: seq<Block>, t1: seq<Inode>, f1: seq<File>, b: seq<Block>, t: seq<Inode>,
                      f: seq<File>)
    requires w + n <= |src| && r <= n
    requires Rewritten(ip, off, src, w, b0, t0, f0, b1, t1, f1)
    requires Rewritten(ip, off + w, src[w..w + n], r, b1, t1, f1, b, t, f)
    ensures Rewritten(ip, off, src, w + r, b0, t0, f0, b, t, f) && t[ip].kind == t1[ip].kind
            && t[ip].inum == t1[ip].inum
  {
    hide Contents, FileOk, Overwritten;
    var i := t1[ip].inum;
    ContentsSize(b0, f0[i]);
    WrittenMore(off, src, w, r, Contents(b0, f0[i]), Contents(b1, f1[i]));
    assert src[w..w + n][..r] == src[w..][..r];
  }

  /** When a write of n bytes can be done whole. */
  predicate Whole(size: nat, off: nat, n: nat, readable: nat) {
    off <= size && off + n <= MAXFILE * BSIZE && n <= readable
  }

  lemma RewrittenSize(ip: nat, off: nat, src: seq<byte>, w: nat, b0: seq<Block>, t0: seq<Inode>, f0: seq<File>,
                      b: seq<Block>, t: seq<Inode>, f: seq<File>)
    requires Rewritten(ip, off, src, w, b0, t0, f0, b, t, f)
    ensures off + w <= t[ip].size
  {
    var i := t[ip].inum;
    assert |Contents(b, f[i])| == f[i].size;
  }

  lemma SliceOfSlice(s: seq<byte>, w: nat, n: nat, a: nat, b: nat)
    requires w + n <= |s| && a <= b <= n
    ensures s[w..w + n][a..b] == s[w + a..w + b]
  {
    var t := s[w..w + n];
    assert forall k | 0 <= k < b - a :: t[a..b][k] == t[a + k] == s[w + a + k];
  }

  /** A failed copy in the transaction after w bytes brings in the bytes up to the first unreadable one. */
  lemma HalfCopiedNext(off: nat, src: seq<byte>, readable: nat, w: nat, n: nat, r: nat)
    requires w + n <= |src| && 0 < n && Copied(off + w, n, if w < readable then readable - w else 0, r)
    ensures var torn := HalfCopied(src[w..w + n], if w < readable then readable - w else 0, r);
            torn != [] ==> r < n && torn == HalfCopied(src, readable, w + r)
  {
    if w < readable && w + r <= readable < w + n {
      SliceOfSlice(src, w, n, r, readable - w);
    }
  }

  /** The transaction for the n bytes after the first w: it falls short exactly when those cannot be written whole. */
  method NextTransaction(fs: Fs, ip: nat, off: nat, src: seq<byte>, readable: nat, w: nat, n: nat,
                         ghost b0: seq<Block>, ghost t0: seq<Inode>, ghost f0: seq<File>)
    returns (r: int, panic: bool, ghost now: nat, ghost clean: seq<Block>, ghost torn: seq<byte>)
    requires Written(fs, fs.blocks, ip, off, src, w, b0, t0, f0) && w + n <= |src| && 0 < n <= CHUNK
             && off + w < WORDLIMIT
    modifies fs
    ensures panic ==> Full(fs.sb, fs.blocks)
    ensures fs.base == old(fs.blocks)
    ensures !panic ==> Footprint(fs.sb, fs.logged) && r <= n
    ensures !panic ==> now == (if r < 0 then w else w + r) && Written(fs, clean, ip, off, src, now, b0, t0, f0)
    ensures !panic ==> (r == n <==> Whole(t0[ip].size, off, w + n, if w < readable then readable else w))
    ensures !panic ==> (torn != [] ==> 0 <= r < n && torn == HalfCopied(src, readable, now))
                       && CommitLeaves(fs.blocks, fs.logged, clean)
    ensures !panic ==> fs.itable[ip].inum < |fs.files|
                       && Torn(clean, fs.blocks, fs.files[fs.itable[ip].inum], off + now, torn)
  {
    hide Rewritten, Consistent, Full, Torn, HalfCopied, CommitLeaves, InodesKept;
    ghost var b1, t1, f1 := fs.blocks, fs.itable, fs.files;
    if off <= t0[ip].size {
      RewrittenSize(ip, off, src, w, b0, t0, f0, b1, t1, f1);
    }
    var left := if w < readable then readable - w else 0;
    r, panic, clean, torn := WriteTransaction(fs, ip, off + w, src[w..w + n], left);
    now := w;
    if !panic {
      EntryBasics(fs.sb, clean, fs.files, fs.owner, fs.inuse, fs.itable, -1, {}, ip);
      NotTorn(clean, fs.files[fs.itable[ip].inum], off + w);
      if r >= 0 {
        now := w + r;
        HalfCopiedNext(off, src, readable, w, n, r);
        RewrittenNext(ip, off, src, w, n, r, b0, t0, f0, b1, t1, f1, clean, fs.itable, fs.files);
        InodesKeptTrans(fs.sb, b0, b1, clean, fs.itable[ip].inum);
      }
    }
  }

  lemma NotTorn(clean: seq<Block>, f: File, p: nat)
    ensures Torn(clean, clean, f, p, [])
  {
  }

  /** filewrite on an inode: the offset moves past exactly what was written, and the content changes there and nowhere
      else, but for what a failed copy leaves behind. The result is n if and only if the whole write is possible;
      otherwise it is -1, and a part may have been written. trail is the list of states between the transactions, up to
      the last one that was completed. */
  method Filewrite(fs: Fs, ip: nat, off: nat, src: seq<byte>, readable: nat)
    returns (ret: int, off': nat, panic: bool, ghost w: nat, ghost trail: seq<Point>, ghost clean: seq<Block>,
             ghost torn: seq<byte>)
    requires fs.Valid(-1) && fs.Locked(ip) && fs.itable[ip].kind != 0 && off < WORDLIMIT && |src| < WORDLIMIT / 2
    modifies fs
    ensures panic ==> Full(fs.sb, fs.blocks)
    ensures Trail(fs.sb, trail, old(fs.itable[ip].inum), off, src, old(fs.blocks), old(fs.files))
    ensures !panic ==> trail[|trail| - 1] == Now(fs, clean, w)
    ensures !panic ==>
              && off' == off + w && w <= |src| && Written(fs, clean, ip, off, src, w, old(fs.blocks), old(fs.itable),
                                                          old(fs.files))
              && fs.itable[ip].inum < |fs.files| && Torn(clean, fs.blocks, fs.files[fs.itable[ip].inum], off', torn)
              && (torn != [] ==> ret == -1 && torn == HalfCopied(src, readable, w))
    ensures !panic ==> ret == (if |src| == 0 || Whole(old(fs.itable)[ip].size, off, |src|, readable) then |src| else -1)
    ensures !panic ==> (ret >= 0 ==> w == |src|)
  {
    hide Rewritten, Consistent, Full, OnDisk, Footprint, PointOk, Trail, Torn, HalfCopied, CommitLeaves, HasMetadata,
      InodesKept;
    var n, i := |src|, 0;
    ret, off', panic, w, clean, torn := -1, off, false, 0, fs.blocks, [];
    NothingWritten(fs, ip, off, src);
    ghost var b0, t0, f0, inum := fs.blocks, fs.itable, fs.files, fs.itable[ip].inum;
    EntryBasics(fs.sb, fs.blocks, fs.files, fs.owner, fs.inuse, fs.itable, -1, {}, ip);
    EntryMetadata(fs.sb, fs.blocks, fs.files, fs.owner, fs.inuse, fs.itable, ip);
    WrittenPoint(fs, clean, ip, off, src, 0, b0, t0, f0);
    NotTorn(clean, fs.files[inum], off);
    trail := [Now(fs, clean, 0)];
    TrailStarts(fs.sb, trail[0], inum, off, src, b0, f0);
    while i < n
      invariant 0 <= i == w <= n && off' == off + i && off' < WORDLIMIT && !panic && ret == -1
                && (i < n ==> i == (|trail| - 1) * CHUNK)
      invariant trail != [] && Trail(fs.sb, trail, inum, off, src, b0, f0) && trail[|trail| - 1] == Now(fs, clean, w)
      invariant i == 0 || Whole(t0[ip].size, off, i, readable)
      invariant Written(fs, clean, ip, off, src, w, b0, t0, f0) && torn == [] && clean == fs.blocks
      invariant fs.itable[ip].inum < |fs.files| && Torn(clean, fs.blocks, fs.files[fs.itable[ip].inum], off', torn)
    {
      var n1 := if n - i > CHUNK then CHUNK else n - i;
      var r;
      r, panic, w, clean, torn := NextTransaction(fs, ip, off, src, readable, i, n1, b0, t0, f0);
      if panic {
        return;
      }
      WrittenPoint(fs, clean, ip, off, src, w, b0, t0, f0);
      TrailGrows(fs.sb, trail, Now(fs, clean, w), inum, off, src, b0, f0);
      trail := trail + [Now(fs, clean, w)];
      if r > 0 {
        off' := off' + r;
      }
      if r != n1 {
        break;
      }
      TornNothing(clean, fs.blocks, fs.files[fs.itable[ip].inum], off');
      i := i + r;
    }
    ret := if i == n then n else -1;
  }

  lemma TornNothing(clean: seq<Block>, blocks: seq<Block>, f: File, p: nat)
    requires Torn(clean, blocks, f, p, [])
    ensures blocks == clean
  {
  }
}
