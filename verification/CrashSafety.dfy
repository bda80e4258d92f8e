/** What the log gives the file system: after a crash at any point of any run, the disk holds a consistent file system
    with the files of the last committed transaction. */
module CrashSafety {
  import opened Blocks
  import opened FsLayout
  import opened FsSpec
  import opened FileSystem
  import opened FileWrite
  import Log = LogSpec
  import RedoLog

  /** The blocks that the file system changes lie outside the log, as mkfs lays them out. */
  ghost predicate OutsideLog(L: Log.Layout, sb: Superblock) {
    forall k | sb.IsManaged(k) :: !L.InLog(k)
  }

  /** The disk holds these files, with the same contents and metadata as on the disk d. */
  ghost predicate HasFiles(sb: Superblock, disk: Log.Disk, d: Log.Disk, files: seq<File>, owner: map<nat, Owner>) {
    && OnDisk(sb, disk, files, owner) && FilesOk(d, files) && InodesKept(sb, d, disk, -1)
    && forall i | 0 <= i < |files| :: Contents(disk, files[i]) == Contents(d, files[i])
  }

  /** Only home blocks matter to the file system. */
  lemma SameFiles(L: Log.Layout, sb: Superblock, d: Log.Disk, e: Log.Disk, files: seq<File>, owner: map<nat, Owner>)
    requires OnDisk(sb, d, files, owner) && OutsideLog(L, sb) && Log.SameHome(L, e, d)
    ensures HasFiles(sb, e, d, files, owner)
  {
    hide Contents, InodesKept;
    forall k | 0 <= k < |d| && sb.IsManaged(k)
      ensures e[k] == d[k]
    {
      assert L.IsHome(e, k);
    }
    forall b | b in owner && b < |d|
      ensures e[b] == d[b]
    {
      assert OwnerHolds(sb, d, files, owner, b);
    }
    FrameExtends(sb, d, e, files, owner);
    BitsFrame(sb, d, e, owner.Keys);
    SyncedFrame(sb, d, e, files, -1);
    AllMappedExtends(d, files, e, files);
    InodesSame(sb, d, e);
  }

  /** In every run of commits, crashes and recoveries, what recovery finds are the files of the last committed
      transaction. */
  lemma CommittedFilesSurvive(L: Log.Layout, sb: Superblock, ms: seq<Log.Machine>, es: seq<Log.Event>, i: nat,
                              files: seq<File>, owner: map<nat, Owner>)
    requires Log.IsRun(L, ms, es) && i < |ms| && OutsideLog(L, sb) && OnDisk(sb, ms[i].committed, files, owner)
    ensures Log.GoodDisk(L, ms[i].disk)
    ensures HasFiles(sb, Log.Recovered(L, ms[i].disk), ms[i].committed, files, owner)
  {
    Log.CrashAtomicity(L, ms, es);
    SameFiles(L, sb, ms[i].committed, Log.Recovered(L, ms[i].disk), files, owner);
  }

  // One transaction.

  /** The header names exactly the blocks that were logged, and has room for them. */
  predicate Names(L: Log.Layout, lh: seq<nat>, logged: set<nat>) {
    Distinct(lh) && Elements(lh) == logged && |lh| <= Log.LOGSIZE && |lh| < L.size
  }

  /** The commit of a transaction whose every change was logged takes the disk from before to after. */
  lemma CommitOf(L: Log.Layout, sb: Superblock, d: Log.Disk, before: seq<Block>, after: seq<Block>, logged: set<nat>,
                 lh: seq<nat>)
    requires L.Fits(d) && OutsideLog(L, sb) && sb.Fits(before) && Log.SameHome(L, d, before)
    requires Accounted(sb, before, after, logged) && Names(L, lh, logged)
    ensures forall i | 0 <= i < |lh| :: lh[i] < |after|
    ensures Log.GoodTransaction(L, d, lh, Log.Selected(after, lh))
    ensures Log.SameHome(L, Log.Updated(d, lh, Log.Selected(after, lh)), after)
  {
    forall i | 0 <= i < |lh|
      ensures L.IsHome(d, lh[i]) && lh[i] < |after|
    {
      assert lh[i] in Elements(lh);
    }
    var data := Log.Selected(after, lh);
    forall k | L.IsHome(d, k)
      ensures Log.Updated(d, lh, data)[k] == after[k]
    {
      if k in lh {
        var i :| 0 <= i < |lh| && lh[i] == k;
        Log.UpdatedHit(d, lh, data, i);
      } else {
        assert k !in Elements(lh);
        Log.UpdatedMiss(d, lh, data, k);
      }
    }
  }

  lemma SameData(p: Point, lh: seq<nat>)
    requires CommitLeaves(p.cached, p.logged, p.blocks) && Elements(lh) == p.logged
    requires forall i | 0 <= i < |lh| :: lh[i] < |p.blocks|
    ensures Log.Selected(p.cached, lh) == Log.Selected(p.blocks, lh)
  {
    forall i | 0 <= i < |lh|
      ensures p.cached[lh[i]] == p.blocks[lh[i]]
    {
      assert lh[i] in Elements(lh);
    }
  }

  /** A crash after any number w of the disk writes of a commit: recovery finds the files from before the transaction if
      the header was not written yet, and else those from after it, consistent either way. Without a crash the disk has
      the blocks from after it, and the log is empty again. */
  lemma TransactionIsAtomic(L: Log.Layout, sb: Superblock, d: Log.Disk, before: Point, after: Point, lh: seq<nat>,
                            w: nat)
    requires Log.EmptyLog(L, d) && OutsideLog(L, sb) && Log.SameHome(L, d, before.blocks)
    requires OnDisk(sb, before.blocks, before.files, before.owner) && OnDisk(sb, after.blocks, after.files, after.owner)
    requires Accounted(sb, before.blocks, after.blocks, after.logged) && Names(L, lh, after.logged)
    requires CommitLeaves(after.cached, after.logged, after.blocks) && w <= Log.CommitWrites(|lh|)
    ensures forall i | 0 <= i < |lh| :: lh[i] < |after.cached|
    ensures Log.GoodTransaction(L, d, lh, Log.Selected(after.cached, lh))
    ensures var e := Log.CommitDisk(L, d, lh, Log.Selected(after.cached, lh), w);
            && Log.GoodDisk(L, e)
            && var p := if w <= |lh| then before else after;
            HasFiles(sb, Log.Recovered(L, e), p.blocks, p.files, p.owner)
    ensures var e := Log.CommitDisk(L, d, lh, Log.Selected(after.cached, lh), w);
            w == Log.CommitWrites(|lh|) ==> Log.EmptyLog(L, e) && Log.SameHome(L, e, after.blocks)
  {
    hide OnDisk, HasFiles;
    assert sb.Fits(before.blocks) by { OnDiskFits(sb, before); }
    CommitOf(L, sb, d, before.blocks, after.blocks, after.logged, lh);
    SameData(after, lh);
    var data := Log.Selected(after.cached, lh);
    var e := Log.CommitDisk(L, d, lh, data, w);
    if w <= |lh| {
      Log.CrashBeforeHeader(L, d, lh, data, w);
      Log.SameHomeTrans(L, Log.Recovered(L, e), d, before.blocks);
      SameFiles(L, sb, before.blocks, Log.Recovered(L, e), before.files, before.owner);
    } else {
      Log.CrashAfterHeader(L, d, lh, data, w);
      Log.SameHomeTrans(L, Log.Recovered(L, e), Log.Updated(d, lh, data), after.blocks);
      SameFiles(L, sb, after.blocks, Log.Recovered(L, e), after.files, after.owner);
      if w == Log.CommitWrites(|lh|) {
        Log.FullCommit(L, d, lh, data);
        Log.SameHomeTrans(L, e, Log.Updated(d, lh, data), after.blocks);
      }
    }
  }

  lemma OnDiskFits(sb: Superblock, p: Point)
    requires OnDisk(sb, p.blocks, p.files, p.owner)
    ensures sb.Fits(p.blocks)
  {
  }

  /** Whatever operations of the inode layer make up the transaction, and also if the last of them was a write that a
      failed copy cut short: clean are the blocks that the commit leaves on the disk. */
  lemma OperationsAreAtomic(L: Log.Layout, fs: Fs, clean: seq<Block>, d: Log.Disk, files: seq<File>,
                            owner: map<nat, Owner>, lh: seq<nat>, w: nat)
    requires fs.Settled(clean) && CommitLeaves(fs.blocks, fs.logged, clean)
    requires OnDisk(fs.sb, fs.base, files, owner) && OutsideLog(L, fs.sb)
    requires Log.EmptyLog(L, d) && Log.SameHome(L, d, fs.base) && Names(L, lh, fs.logged) && w <= Log.CommitWrites(|lh|)
    ensures forall i | 0 <= i < |lh| :: lh[i] < |fs.blocks|
    ensures Log.GoodTransaction(L, d, lh, Log.Selected(fs.blocks, lh))
    ensures var e := Log.CommitDisk(L, d, lh, Log.Selected(fs.blocks, lh), w);
            && Log.GoodDisk(L, e)
            && if w <= |lh| then HasFiles(fs.sb, Log.Recovered(L, e), fs.base, files, owner)
               else HasFiles(fs.sb, Log.Recovered(L, e), clean, fs.files, fs.owner)
  {
    hide OnDisk, HasFiles, Consistent;
    CouldStart(fs.sb, clean, fs.files, fs.owner, fs.inuse, fs.itable);
    TransactionIsAtomic(L, fs.sb, d, Point(fs.base, fs.base, files, owner, {}, 0), Now(fs, clean, 0), lh, w);
  }

  // All transactions of a write.

  /** The headers of the commits of a trail. A transaction of filewrite always fits a log of the size that mkfs gives
      it. */
  ghost predicate Headers(ps: seq<Point>, lhs: seq<seq<nat>>) {
    |lhs| == |ps| && forall t | 0 < t < |ps| :: Distinct(lhs[t]) && Elements(lhs[t]) == ps[t].logged
  }

  lemma HeaderFits(L: Log.Layout, sb: Superblock, lh: seq<nat>, logged: set<nat>)
    requires Footprint(sb, logged) && BitmapBlocks(sb) <= 3 && L.size == Log.LOGSIZE && Distinct(lh)
             && Elements(lh) == logged
    ensures Names(L, lh, logged)
  {
    TransactionSize(sb, logged);
    DistinctSize(lh);
  }

  /** The disk after the commits of the first t transactions. */
  ghost predicate DiskAfter(L: Log.Layout, d: Log.Disk, ps: seq<Point>, lhs: seq<seq<nat>>, t: nat, e: Log.Disk)
    requires |lhs| == |ps| && t < |ps|
    decreases t
  {
    if t == 0 then e == d
    else exists f :: DiskAfter(L, d, ps, lhs, t - 1, f)
                     && CommitsTo(L, f, lhs[t], ps[t].cached, Log.CommitWrites(|lhs[t]|), e)
  }

  /** e is the disk after w writes of the commit that logs these contents of the blocks of lh. */
  predicate CommitsTo(L: Log.Layout, d: Log.Disk, lh: seq<nat>, contents: seq<Block>, w: nat, e: Log.Disk) {
    && (forall i | 0 <= i < |lh| :: lh[i] < |contents|)
    && Log.GoodTransaction(L, d, lh, Log.Selected(contents, lh)) && w <= Log.CommitWrites(|lh|)
    && e == Log.CommitDisk(L, d, lh, Log.Selected(contents, lh), w)
  }

  lemma StepOfTrail(L: Log.Layout, sb: Superblock, ps: seq<Point>, lhs: seq<seq<nat>>, t: nat,
                    i: nat, off: nat, src: seq<byte>, b0: seq<Block>, f0: seq<File>)
    requires Trail(sb, ps, i, off, src, b0, f0) && Headers(ps, lhs) && 0 < t < |ps|
    requires BitmapBlocks(sb) <= 3 && L.size == Log.LOGSIZE
    ensures Names(L, lhs[t], ps[t].logged) && Accounted(sb, ps[t - 1].blocks, ps[t].blocks, ps[t].logged)
    ensures CommitLeaves(ps[t].cached, ps[t].logged, ps[t].blocks)
    ensures OnDisk(sb, ps[t - 1].blocks, ps[t - 1].files, ps[t - 1].owner)
            && OnDisk(sb, ps[t].blocks, ps[t].files, ps[t].owner)
  {
    hide OnDisk, Footprint;
    assert PointOk(sb, ps[t - 1], i, off, src, b0, f0) && PointOk(sb, ps[t], i, off, src, b0, f0);
    assert Follows(sb, ps[t - 1], ps[t]);
    HeaderFits(L, sb, lhs[t], ps[t].logged);
  }

  lemma TrailStart(sb: Superblock, ps: seq<Point>, i: nat, off: nat, src: seq<byte>, b0: seq<Block>, f0: seq<File>)
    requires Trail(sb, ps, i, off, src, b0, f0)
    ensures ps != [] && ps[0].blocks == b0
  {
  }

  lemma HeadersSize(ps: seq<Point>, lhs: seq<seq<nat>>)
    requires Headers(ps, lhs)
    ensures |lhs| == |ps|
  {
  }

  /** While there is no crash, the disk has what the file system had after each transaction. */
  lemma {:induction false} TrailOnDisk(L: Log.Layout, sb: Superblock, d: Log.Disk, ps: seq<Point>, lhs: seq<seq<nat>>,
                                       t: nat, e: Log.Disk, i: nat, off: nat, src: seq<byte>, b0: seq<Block>,
                                       f0: seq<File>)
    requires Trail(sb, ps, i, off, src, b0, f0) && Headers(ps, lhs) && t < |ps|
    requires BitmapBlocks(sb) <= 3 && L.size == Log.LOGSIZE && OutsideLog(L, sb)
    requires Log.EmptyLog(L, d) && Log.SameHome(L, d, b0) && DiskAfter(L, d, ps, lhs, t, e)
    ensures Log.EmptyLog(L, e) && Log.SameHome(L, e, ps[t].blocks)
    decreases t
  {
    hide OnDisk, HasFiles, Trail, Headers, Names, Accounted, CommitLeaves, OutsideLog;
    hide Log.EmptyLog, Log.SameHome, Log.CommitDisk, Log.GoodTransaction, Log.GoodDisk, Log.Recovered;
    TrailStart(sb, ps, i, off, src, b0, f0);
    HeadersSize(ps, lhs);
    if t > 0 {
      var f :| DiskAfter(L, d, ps, lhs, t - 1, f)
               && CommitsTo(L, f, lhs[t], ps[t].cached, Log.CommitWrites(|lhs[t]|), e);
      TrailOnDisk(L, sb, d, ps, lhs, t - 1, f, i, off, src, b0, f0);
      var w := Log.CommitWrites(|lhs[t]|);
      StepOfTrail(L, sb, ps, lhs, t, i, off, src, b0, f0);
      TransactionIsAtomic(L, sb, f, ps[t - 1], ps[t], lhs[t], w);
    }
  }

  /** The recovered file system: consistent, with the first n bytes of the write in place, and otherwise as before
    it. */
  ghost predicate HasPrefix(sb: Superblock, disk: Log.Disk, files: seq<File>, owner: map<nat, Owner>, n: nat,
                            i: nat, off: nat, src: seq<byte>, b0: seq<Block>, f0: seq<File>)
  {
    PointOk(sb, Point(disk, disk, files, owner, {}, n), i, off, src, b0, f0)
  }

  lemma PrefixRecovered(sb: Superblock, disk: Log.Disk, ps: seq<Point>, t: nat,
                        i: nat, off: nat, src: seq<byte>, b0: seq<Block>, f0: seq<File>)
    requires Trail(sb, ps, i, off, src, b0, f0) && t < |ps|
    requires HasFiles(sb, disk, ps[t].blocks, ps[t].files, ps[t].owner)
    ensures HasPrefix(sb, disk, ps[t].files, ps[t].owner, ps[t].written, i, off, src, b0, f0)
  {
    hide OnDisk, Contents, Footprint, DiskInode;
    assert PointOk(sb, ps[t], i, off, src, b0, f0);
    InodesKeptTrans(sb, b0, ps[t].blocks, disk, i);
  }

  /** A crash anywhere in filewrite, at any write of the commit of any of its transactions: after recovery the file
      system is consistent, the file has the first so many bytes of the write and else its old content, and no other
      file, and no inode's metadata, has changed. The number of bytes is what the transactions whose headers reached the
      disk have written. What is committed is what the cache holds, also when a failed copy has left something in it. */
  lemma FilewriteSurvivesCrash(L: Log.Layout, sb: Superblock, d: Log.Disk, ps: seq<Point>, lhs: seq<seq<nat>>, t: nat,
                               f: Log.Disk, w: nat, e: Log.Disk, i: nat, off: nat, src: seq<byte>, b0: seq<Block>,
                               f0: seq<File>)
    requires Trail(sb, ps, i, off, src, b0, f0) && Headers(ps, lhs) && 0 < t < |ps|
    requires BitmapBlocks(sb) <= 3 && L.size == Log.LOGSIZE && OutsideLog(L, sb)
    requires Log.EmptyLog(L, d) && Log.SameHome(L, d, b0)
    requires DiskAfter(L, d, ps, lhs, t - 1, f) && CommitsTo(L, f, lhs[t], ps[t].cached, w, e)
    ensures Log.GoodDisk(L, e)
    ensures var p := ps[if w <= |lhs[t]| then t - 1 else t];
            HasPrefix(sb, Log.Recovered(L, e), p.files, p.owner, p.written, i, off, src, b0, f0)
  {
    hide OnDisk, HasFiles, HasPrefix, Trail, Headers, Names, Accounted, CommitLeaves, OutsideLog, DiskAfter;
    hide Log.EmptyLog, Log.SameHome, Log.CommitDisk, Log.GoodTransaction, Log.GoodDisk, Log.Recovered;
    HeadersSize(ps, lhs);
    TrailOnDisk(L, sb, d, ps, lhs, t - 1, f, i, off, src, b0, f0);
    StepOfTrail(L, sb, ps, lhs, t, i, off, src, b0, f0);
    TransactionIsAtomic(L, sb, f, ps[t - 1], ps[t], lhs[t], w);
    PrefixRecovered(sb, Log.Recovered(L, e), ps, if w <= |lhs[t]| then t - 1 else t, i, off, src, b0, f0);
  }

  /** Every interleaving of filewrites that the log has seen leaves log_write room for one more block. */
  lemma WritesFindRoom(log: RedoLog.Log, sb: Superblock)
    requires log.Valid() && log.L.size == Log.LOGSIZE && log.outstanding > 0
    requires BitmapBlocks(sb) <= 3 && OnlyWrites(sb, log.trace)
    ensures log.n < Log.LOGSIZE && log.n < log.L.size - 1
  {
    WritesAreSmall(sb, log.trace);
    log.FindsRoom(6 + BitmapBlocks(sb));
  }
}
