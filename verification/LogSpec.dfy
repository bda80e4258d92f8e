/** What the redo log of kernel/log.c writes to the disk, write by write, and what a crash
    between any two of those writes leaves for recovery to find. */
module LogSpec {
  import opened Blocks

  const MAXOPBLOCKS: nat := 10  // kernel/param.h
  const LOGSIZE: nat := MAXOPBLOCKS * 3

  type Disk = seq<Block>

  /** Where the log lives: a header block at start, followed by size - 1 log blocks. */
  datatype Layout = Layout(start: nat, size: nat) {
    predicate InLog(k: int) {
      start <= k < start + size
    }

    predicate Fits(d: Disk) {
      0 < size && start + size <= |d| <= WORDLIMIT
    }

    predicate IsHome(d: Disk, k: int) {
      0 <= k < |d| && !InLog(k)
    }
  }

  /** The block numbers of a header: home blocks, few enough to fit the log and its header block. */
  predicate GoodEntries(L: Layout, d: Disk, lh: seq<nat>) {
    |lh| <= LOGSIZE && |lh| < L.size && forall i | 0 <= i < |lh| :: L.IsHome(d, lh[i])
  }

  // The header block: word 0 is n, word i + 1 is block[i].

  function HeaderCount(b: Block): (n: nat) {
    WordAt(b, 0)
  }

  function Decode(b: Block): (lh: seq<nat>)
    requires HeaderCount(b) <= LOGSIZE
  {
    seq(HeaderCount(b), i requires 0 <= i < HeaderCount(b) => WordAt(b, i + 1))
  }

  /** The header block after n and the first i entries have been stored in it. */
  function EncodeUpTo(b: Block, lh: seq<nat>, i: nat): (r: Block)
    requires i <= |lh| <= LOGSIZE && forall j | 0 <= j < |lh| :: lh[j] < WORDLIMIT
  {
    if i == 0 then PutWord(b, 0, |lh|) else PutWord(EncodeUpTo(b, lh, i - 1), i, lh[i - 1])
  }

  function Encode(b: Block, lh: seq<nat>): (r: Block)
    requires |lh| <= LOGSIZE && forall j | 0 <= j < |lh| :: lh[j] < WORDLIMIT
  {
    EncodeUpTo(b, lh, |lh|)
  }

  lemma {:induction false} EncodedWord(b: Block, lh: seq<nat>, i: nat, j: nat)
    requires i <= |lh| <= LOGSIZE && forall j | 0 <= j < |lh| :: lh[j] < WORDLIMIT
    requires j <= i
    ensures WordAt(EncodeUpTo(b, lh, i), j) == if j == 0 then |lh| else lh[j - 1]
  {
    if i == 0 {
      PutWordAt(b, 0, |lh|, j);
    } else {
      PutWordAt(EncodeUpTo(b, lh, i - 1), i, lh[i - 1], j);
      if j < i {
        EncodedWord(b, lh, i - 1, j);
      }
    }
  }

  /** write_head followed by read_head returns the header, whatever the block held before. */
  lemma HeaderRoundTrip(b: Block, lh: seq<nat>)
    requires |lh| <= LOGSIZE && forall j | 0 <= j < |lh| :: lh[j] < WORDLIMIT
    ensures HeaderCount(Encode(b, lh)) == |lh| && Decode(Encode(b, lh)) == lh
  {
    forall j | 0 <= j <= |lh| {
      EncodedWord(b, lh, |lh|, j);
    }
    forall j | 0 <= j < |lh|
      ensures Decode(Encode(b, lh))[j] == lh[j]
    {
      EncodedWord(b, lh, |lh|, j + 1);
    }
  }

  /** Where struct logheader has its fields: n in the first four bytes, and block[i] four bytes further each. */
  lemma HeaderLayout(b: Block)
    requires HeaderCount(b) <= LOGSIZE
    ensures |Decode(b)| == NumberAt(b, 0, 4)
    ensures forall i | 0 <= i < |Decode(b)| :: Decode(b)[i] == NumberAt(b, 4 + 4 * i, 4)
  {
    NumberWord(b, 0);
    forall i | 0 <= i < |Decode(b)|
      ensures Decode(b)[i] == NumberAt(b, 4 + 4 * i, 4)
    {
      NumberWord(b, i + 1);
    }
  }

  // Disk images.

  /** The disk after write_log has written the first j log blocks. */
  function LogFilled(L: Layout, d: Disk, data: seq<Block>, j: nat): (r: Disk)
    requires L.Fits(d) && j <= |data| < L.size
    ensures |r| == |d|
  {
    if j == 0 then d else LogFilled(L, d, data, j - 1)[L.start + j := data[j - 1]]
  }

  /** The disk after write_head. */
  function Headed(L: Layout, d: Disk, lh: seq<nat>): (r: Disk)
    requires L.Fits(d) && GoodEntries(L, d, lh)
  {
    d[L.start := Encode(d[L.start], lh)]
  }

  /** The disk after install_trans has copied the first t log blocks to their home locations. */
  function Installed(L: Layout, d: Disk, lh: seq<nat>, t: nat): (r: Disk)
    requires L.Fits(d) && GoodEntries(L, d, lh) && t <= |lh|
    ensures |r| == |d|
  {
    if t == 0 then d else
    var d' := Installed(L, d, lh, t - 1);
    d'[lh[t - 1] := d'[L.start + t]]
  }

  /** How many disk writes commit makes for n logged blocks. */
  function CommitWrites(n: nat): (w: nat) {
    if n == 0 then 0 else 2 * n + 2
  }

  predicate GoodTransaction(L: Layout, d: Disk, lh: seq<nat>, data: seq<Block>) {
    L.Fits(d) && GoodEntries(L, d, lh) && Distinct(lh) && |data| == |lh|
  }

  /** The disk after the first w writes of a commit that logs data[i] for home block lh[i]. */
  function CommitDisk(L: Layout, d: Disk, lh: seq<nat>, data: seq<Block>, w: nat): (r: Disk)
    requires GoodTransaction(L, d, lh, data)
    requires w <= CommitWrites(|lh|)
    ensures |r| == |d|
  {
    var n := |lh|;
    if w <= n then
      LogFilled(L, d, data, w)
    else
      var headed := Headed(L, LogFilled(L, d, data, n), lh);
      if w <= 2 * n + 1 then
        Installed(L, headed, lh, w - n - 1)
      else
        Headed(L, Installed(L, headed, lh, n), [])
  }

  /** The disk before a commit and after each of its writes. */
  function CommitImages(L: Layout, d: Disk, lh: seq<nat>, data: seq<Block>): (images: seq<Disk>)
    requires GoodTransaction(L, d, lh, data)
  {
    seq(CommitWrites(|lh|) + 1, w requires 0 <= w <= CommitWrites(|lh|) => CommitDisk(L, d, lh, data, w))
  }

  /** Write t of write_log. */
  predicate LogsBlock(L: Layout, images: seq<Disk>, data: seq<Block>, t: nat) {
    t + 1 < |images| && t < |data| && L.start + t + 1 < |images[t]|
    && images[t + 1] == images[t][L.start + t + 1 := data[t]]
  }

  /** Write t of install_trans, which is write n + 1 + t of the commit. */
  predicate InstallsBlock(L: Layout, images: seq<Disk>, lh: seq<nat>, data: seq<Block>, t: nat) {
    var w := |lh| + 1 + t;
    && w + 1 < |images| && t < |lh| == |data| && L.start + t + 1 < |images[w]| && lh[t] < |images[w]|
    && images[w][L.start + t + 1] == data[t] && images[w + 1] == images[w][lh[t] := data[t]]
  }

  /** Each of those images is its predecessor with one block written. */
  predicate CommitSteps(L: Layout, images: seq<Disk>, lh: seq<nat>, data: seq<Block>) {
    var n := |lh|;
    && 0 < n && |images| == 2 * n + 3
    && (forall t | 0 <= t < n :: LogsBlock(L, images, data, t))
    && (forall t | 0 <= t < n :: InstallsBlock(L, images, lh, data, t))
    && Writes(L, images[n], lh, images[n + 1]) && Writes(L, images[2 * n + 1], [], images[2 * n + 2])
  }

  predicate Writes(L: Layout, d: Disk, lh: seq<nat>, e: Disk) {
    L.Fits(d) && GoodEntries(L, d, lh) && e == Headed(L, d, lh)
  }

  lemma CommitImagesStep(L: Layout, d: Disk, lh: seq<nat>, data: seq<Block>)
    requires GoodTransaction(L, d, lh, data) && |lh| > 0
    ensures CommitSteps(L, CommitImages(L, d, lh, data), lh, data)
  {
    var n, images: seq<Disk> := |lh|, CommitImages(L, d, lh, data);
    forall t | 0 <= t < n
      ensures LogsBlock(L, images, data, t) && InstallsBlock(L, images, lh, data, t)
    {
      InstallStep(L, d, lh, data, t);
      assert images[t] == LogFilled(L, d, data, t);
    }
    assert images[n] == LogFilled(L, d, data, n);
  }

  /** The contents of the blocks named by a header. */
  function Selected(contents: seq<Block>, lh: seq<nat>): (data: seq<Block>)
    requires forall i | 0 <= i < |lh| :: lh[i] < |contents|
  {
    seq(|lh|, i requires 0 <= i < |lh| => contents[lh[i]])
  }

  predicate GoodDisk(L: Layout, d: Disk) {
    && L.Fits(d)
    && HeaderCount(d[L.start]) <= LOGSIZE
    && GoodEntries(L, d, Decode(d[L.start]))
    && Distinct(Decode(d[L.start]))
  }

  predicate EmptyLog(L: Layout, d: Disk) {
    L.Fits(d) && HeaderCount(d[L.start]) == 0
  }

  function RecoveryWrites(L: Layout, d: Disk): (w: nat)
    requires GoodDisk(L, d)
  {
    HeaderCount(d[L.start]) + 1
  }

  /** The disk after the first w writes of recover_from_log. */
  function RecoveryDisk(L: Layout, d: Disk, w: nat): (r: Disk)
    requires GoodDisk(L, d) && w <= RecoveryWrites(L, d)
    ensures |r| == |d|
  {
    var lh := Decode(d[L.start]);
    if w <= |lh| then Installed(L, d, lh, w) else Headed(L, Installed(L, d, lh, |lh|), [])
  }

  /** The disk before a recovery and after each of its writes. */
  function RecoveryImages(L: Layout, d: Disk): (images: seq<Disk>)
    requires GoodDisk(L, d)
  {
    seq(RecoveryWrites(L, d) + 1, w requires 0 <= w <= RecoveryWrites(L, d) => RecoveryDisk(L, d, w))
  }

  /** Write t of install_trans(1). */
  predicate RestoresBlock(L: Layout, images: seq<Disk>, lh: seq<nat>, t: nat) {
    && t + 1 < |images| && t < |lh| && L.start + t + 1 < |images[t]| && lh[t] < |images[t]|
    && images[t + 1] == images[t][lh[t] := images[t][L.start + t + 1]]
  }

  lemma RecoveryImagesStep(L: Layout, d: Disk, lh: seq<nat>)
    requires GoodDisk(L, d) && lh == Decode(d[L.start])
    ensures var images := RecoveryImages(L, d);
            && |images| == |lh| + 2 && images[0] == d
            && (forall t | 0 <= t < |lh| :: RestoresBlock(L, images, lh, t))
            && (forall w | 0 <= w < |images| :: |images[w]| == |d|)
            && Writes(L, images[|lh|], [], images[|lh| + 1])
  {
    var images: seq<Disk> := RecoveryImages(L, d);
    forall t | 0 <= t < |lh|
      ensures RestoresBlock(L, images, lh, t)
    {
      assert images[t] == Installed(L, d, lh, t) && images[t + 1] == Installed(L, d, lh, t + 1);
    }
    assert images[|lh|] == Installed(L, d, lh, |lh|);
  }

  /** What recovery makes of a disk found after a crash. */
  function Recovered(L: Layout, d: Disk): (r: Disk)
    requires GoodDisk(L, d)
  {
    RecoveryDisk(L, d, RecoveryWrites(L, d))
  }

  /** The home blocks as a transaction's writer means them to be: lh[i] holds data[i]. */
  function Updated(d: Disk, lh: seq<nat>, data: seq<Block>): (r: Disk)
    requires |data| == |lh| && forall i | 0 <= i < |lh| :: lh[i] < |d|
    ensures |r| == |d|
  {
    if |lh| == 0 then d else
    var n := |lh| - 1;
    Updated(d, lh[..n], data[..n])[lh[n] := data[n]]
  }

  /** Equality of everything outside the log area. */
  ghost predicate SameHome(L: Layout, d: Disk, e: Disk) {
    |d| == |e| && forall k | L.IsHome(d, k) :: d[k] == e[k]
  }

  // Pointwise facts about the images.

  lemma {:induction false} LogFilledAt(L: Layout, d: Disk, data: seq<Block>, j: nat, k: nat)
    requires L.Fits(d) && j <= |data| < L.size && k < |d|
    ensures LogFilled(L, d, data, j)[k] == if L.start < k <= L.start + j then data[k - L.start - 1] else d[k]
  {
    if j != 0 {
      LogFilledAt(L, d, data, j - 1, k);
    }
  }

  lemma {:induction false} InstalledHit(L: Layout, d: Disk, lh: seq<nat>, t: nat, i: nat)
    requires L.Fits(d) && GoodEntries(L, d, lh) && Distinct(lh) && i < t <= |lh|
    ensures Installed(L, d, lh, t)[lh[i]] == d[L.start + 1 + i]
  {
    if i + 1 == t {
      InstalledMiss(L, d, lh, t - 1, L.start + t);
    } else {
      InstalledHit(L, d, lh, t - 1, i);
    }
  }

  lemma {:induction false} InstalledMiss(L: Layout, d: Disk, lh: seq<nat>, t: nat, k: nat)
    requires L.Fits(d) && GoodEntries(L, d, lh) && t <= |lh| && k < |d|
    requires forall i | 0 <= i < t :: lh[i] != k
    ensures Installed(L, d, lh, t)[k] == d[k]
  {
    if t != 0 {
      InstalledMiss(L, d, lh, t - 1, k);
    }
  }

  lemma {:induction false} UpdatedHit(d: Disk, lh: seq<nat>, data: seq<Block>, i: nat)
    requires |data| == |lh| && (forall i | 0 <= i < |lh| :: lh[i] < |d|) && Distinct(lh) && i < |lh|
    ensures Updated(d, lh, data)[lh[i]] == data[i]
  {
    var n := |lh| - 1;
    if i < n {
      UpdatedHit(d, lh[..n], data[..n], i);
      assert lh[..n][i] == lh[i];
    }
  }

  lemma {:induction false} UpdatedMiss(d: Disk, lh: seq<nat>, data: seq<Block>, k: nat)
    requires |data| == |lh| && (forall i | 0 <= i < |lh| :: lh[i] < |d|) && k < |d| && k !in lh
    ensures Updated(d, lh, data)[k] == d[k]
  {
    if |lh| != 0 {
      var n := |lh| - 1;
      UpdatedMiss(d, lh[..n], data[..n], k);
    }
  }

  /** Installing a log whose blocks hold data is the same as making the update directly. */
  lemma InstalledIsUpdated(L: Layout, d: Disk, e: Disk, lh: seq<nat>, data: seq<Block>)
    requires GoodTransaction(L, d, lh, data) && |e| == |d|
    requires forall i | 0 <= i < |lh| :: e[L.start + 1 + i] == data[i]
    requires forall k | L.IsHome(d, k) && k !in lh :: e[k] == d[k]
    ensures SameHome(L, Installed(L, e, lh, |lh|), Updated(d, lh, data))
  {
    forall k | L.IsHome(d, k)
      ensures Installed(L, e, lh, |lh|)[k] == Updated(d, lh, data)[k]
    {
      if k in lh {
        var i :| 0 <= i < |lh| && lh[i] == k;
        InstalledHit(L, e, lh, |lh|, i);
        UpdatedHit(d, lh, data, i);
      } else {
        InstalledMiss(L, e, lh, |lh|, k);
        UpdatedMiss(d, lh, data, k);
      }
    }
  }

  // Crashes.

  lemma ClearedHeader(L: Layout, d: Disk)
    requires L.Fits(d)
    ensures EmptyLog(L, Headed(L, d, [])) && GoodDisk(L, Headed(L, d, [])) && SameHome(L, d, Headed(L, d, []))
  {
    HeaderRoundTrip(d[L.start], []);
  }

  lemma EmptyRecovers(L: Layout, d: Disk)
    requires EmptyLog(L, d)
    ensures GoodDisk(L, d) && SameHome(L, Recovered(L, d), d)
  {
    ClearedHeader(L, d);
  }

  /** A crash before the header write leaves the old home blocks. */
  lemma CrashBeforeHeader(L: Layout, d: Disk, lh: seq<nat>, data: seq<Block>, w: nat)
    requires GoodTransaction(L, d, lh, data) && EmptyLog(L, d) && w <= |lh|
    ensures var e := CommitDisk(L, d, lh, data, w);
            EmptyLog(L, e) && GoodDisk(L, e) && SameHome(L, d, e) && SameHome(L, Recovered(L, e), d)
  {
    var e := CommitDisk(L, d, lh, data, w);
    forall k | 0 <= k < |d| {
      LogFilledAt(L, d, data, w, k);
    }
    EmptyRecovers(L, e);
  }

  /** The disk between the header write and the one that clears it: the log blocks and the header hold
      the transaction, and the home blocks outside it are untouched. */
  lemma WhileCommitted(L: Layout, d: Disk, lh: seq<nat>, data: seq<Block>, t: nat)
    requires GoodTransaction(L, d, lh, data) && t <= |lh|
    ensures var e := Installed(L, Headed(L, LogFilled(L, d, data, |lh|), lh), lh, t);
            && HeaderCount(e[L.start]) == |lh| && Decode(e[L.start]) == lh
            && (forall i | 0 <= i < |lh| :: e[L.start + 1 + i] == data[i])
            && (forall k | L.IsHome(d, k) && k !in lh :: e[k] == d[k])
  {
    var filled := LogFilled(L, d, data, |lh|);
    var headed := Headed(L, filled, lh);
    HeaderRoundTrip(filled[L.start], lh);
    forall k | 0 <= k < |d| && (L.InLog(k) || k !in lh)
      ensures Installed(L, headed, lh, t)[k] == headed[k]
    {
      InstalledMiss(L, headed, lh, t, k);
    }
    forall k | 0 <= k < |d| {
      LogFilledAt(L, d, data, |lh|, k);
    }
  }

  /** Each installing write copies the transaction's data for one block. */
  lemma InstallStep(L: Layout, d: Disk, lh: seq<nat>, data: seq<Block>, t: nat)
    requires GoodTransaction(L, d, lh, data) && t < |lh|
    ensures var e := CommitDisk(L, d, lh, data, |lh| + 1 + t);
            && e[L.start + t + 1] == data[t]
            && CommitDisk(L, d, lh, data, |lh| + 2 + t) == e[lh[t] := data[t]]
  {
    WhileCommitted(L, d, lh, data, t);
  }

  /** A commit that runs to its end has installed the transaction and emptied the log. */
  lemma FullCommit(L: Layout, d: Disk, lh: seq<nat>, data: seq<Block>)
    requires GoodTransaction(L, d, lh, data) && EmptyLog(L, d) && |lh| > 0
    ensures var e := CommitDisk(L, d, lh, data, CommitWrites(|lh|));
            EmptyLog(L, e) && SameHome(L, e, Updated(d, lh, data))
  {
    var headed := Headed(L, LogFilled(L, d, data, |lh|), lh);
    WhileCommitted(L, d, lh, data, 0);
    InstalledIsUpdated(L, d, headed, lh, data);
    ClearedHeader(L, Installed(L, headed, lh, |lh|));
  }

  /** If the blocks outside a transaction are clean, its commit leaves on the disk all that the file system sees. */
  lemma CommitCatchesUp(L: Layout, d: Disk, lh: seq<nat>, seen: seq<Block>)
    requires |seen| == |d| && L.Fits(d) && GoodEntries(L, d, lh) && Distinct(lh) && EmptyLog(L, d) && |lh| > 0
    requires forall k | L.IsHome(d, k) && k !in lh :: seen[k] == d[k]
    ensures var e := CommitDisk(L, d, lh, Selected(seen, lh), CommitWrites(|lh|));
            EmptyLog(L, e) && forall k | L.IsHome(d, k) :: e[k] == seen[k]
  {
    var data := Selected(seen, lh);
    var e := CommitDisk(L, d, lh, data, CommitWrites(|lh|));
    FullCommit(L, d, lh, data);
    forall k | L.IsHome(d, k)
      ensures e[k] == seen[k]
    {
      assert L.IsHome(e, k);
      if k in lh {
        var i :| 0 <= i < |lh| && lh[i] == k;
        UpdatedHit(d, lh, data, i);
      } else {
        UpdatedMiss(d, lh, data, k);
      }
    }
  }

  lemma RecoversBy(L: Layout, e: Disk, lh: seq<nat>)
    requires L.Fits(e) && GoodEntries(L, e, lh) && Distinct(lh)
    requires HeaderCount(e[L.start]) == |lh| && Decode(e[L.start]) == lh
    ensures GoodDisk(L, e) && SameHome(L, Recovered(L, e), Installed(L, e, lh, |lh|))
  {
    ClearedHeader(L, Installed(L, e, lh, |lh|));
  }

  lemma SameHomeTrans(L: Layout, d: Disk, e: Disk, f: Disk)
    requires SameHome(L, d, e) && SameHome(L, e, f)
    ensures SameHome(L, d, f)
  {
    forall k | L.IsHome(d, k)
      ensures d[k] == f[k]
    {
      assert L.IsHome(e, k);
    }
  }

  /** Once the header is written, recovery from any later image yields the new home blocks. */
  lemma CrashAfterHeader(L: Layout, d: Disk, lh: seq<nat>, data: seq<Block>, w: nat)
    requires GoodTransaction(L, d, lh, data) && EmptyLog(L, d) && |lh| < w <= CommitWrites(|lh|)
    ensures var e := CommitDisk(L, d, lh, data, w);
            GoodDisk(L, e) && SameHome(L, Recovered(L, e), Updated(d, lh, data))
  {
    var e := CommitDisk(L, d, lh, data, w);
    if w == CommitWrites(|lh|) {
      FullCommit(L, d, lh, data);
      EmptyRecovers(L, e);
      SameHomeTrans(L, Recovered(L, e), e, Updated(d, lh, data));
    } else {
      WhileCommitted(L, d, lh, data, w - |lh| - 1);
      InstalledIsUpdated(L, d, e, lh, data);
      RecoversBy(L, e, lh);
      SameHomeTrans(L, Recovered(L, e), Installed(L, e, lh, |lh|), Updated(d, lh, data));
    }
  }

  /** A crash anywhere inside recovery is harmless: a second recovery ends where the first would have. */
  lemma CrashInRecoveryHarmless(L: Layout, d: Disk, w: nat)
    requires GoodDisk(L, d) && w <= RecoveryWrites(L, d)
    ensures var e := RecoveryDisk(L, d, w);
            && GoodDisk(L, e) && SameHome(L, Recovered(L, e), Recovered(L, d))
            && (w == RecoveryWrites(L, d) ==> EmptyLog(L, e))
  {
    var lh := Decode(d[L.start]);
    var n := |lh|;
    var full := Installed(L, d, lh, n);
    ClearedHeader(L, full);
    if w > n {
      EmptyRecovers(L, Headed(L, full, []));
    } else {
      var e := Installed(L, d, lh, w);
      forall k | L.InLog(k)
        ensures e[k] == d[k]
      {
        InstalledMiss(L, d, lh, w, k);
      }
      forall k | L.IsHome(d, k)
        ensures Installed(L, e, lh, n)[k] == full[k]
      {
        if k in lh {
          var i :| 0 <= i < |lh| && lh[i] == k;
          InstalledHit(L, e, lh, n, i);
          InstalledHit(L, d, lh, n, i);
        } else {
          InstalledMiss(L, e, lh, n, k);
          InstalledMiss(L, d, lh, n, k);
          InstalledMiss(L, d, lh, w, k);
        }
      }
      ClearedHeader(L, Installed(L, e, lh, n));
    }
  }

  // Whole runs: transactions, crashes between any two disk writes, and recoveries that may crash too.

  datatype Event =
    | Commit(lh: seq<nat>, data: seq<Block>)
    | CrashInCommit(lh: seq<nat>, data: seq<Block>, writes: nat)
    | Recovery
    | CrashInRecovery(writes: nat)

  /** committed: the home blocks as of the last transaction whose non-empty header reached the disk. */
  datatype Machine = Machine(disk: Disk, up: bool, committed: Disk)

  predicate Next(L: Layout, m: Machine, e: Event, m': Machine) {
    match e
    case Commit(lh, data) =>
      && m.up && GoodTransaction(L, m.disk, lh, data) && |m.committed| == |m.disk|
      && m' == Machine(CommitDisk(L, m.disk, lh, data, CommitWrites(|lh|)), true, Updated(m.committed, lh, data))
    case CrashInCommit(lh, data, writes) =>
      && m.up && GoodTransaction(L, m.disk, lh, data) && |m.committed| == |m.disk|
      && writes <= CommitWrites(|lh|)
      && m' == Machine(CommitDisk(L, m.disk, lh, data, writes), false,
                       if writes <= |lh| then m.committed else Updated(m.committed, lh, data))
    case Recovery =>
      && !m.up && GoodDisk(L, m.disk)
      && m' == Machine(Recovered(L, m.disk), true, m.committed)
    case CrashInRecovery(writes) =>
      && !m.up && GoodDisk(L, m.disk) && writes <= RecoveryWrites(L, m.disk)
      && m' == Machine(RecoveryDisk(L, m.disk, writes), false, m.committed)
  }

  predicate IsRun(L: Layout, ms: seq<Machine>, es: seq<Event>) {
    && |ms| == |es| + 1
    && ms[0].up && EmptyLog(L, ms[0].disk) && ms[0].committed == ms[0].disk
    && forall i | 0 <= i < |es| :: Next(L, ms[i], es[i], ms[i + 1])
  }

  /** Recovery would yield exactly the committed home blocks; a running system already has them on disk. */
  ghost predicate Atomic(L: Layout, m: Machine) {
    && GoodDisk(L, m.disk)
    && SameHome(L, Recovered(L, m.disk), m.committed)
    && (m.up ==> EmptyLog(L, m.disk) && SameHome(L, m.disk, m.committed))
  }

  lemma UpdatedSameHome(L: Layout, d: Disk, e: Disk, lh: seq<nat>, data: seq<Block>)
    requires GoodTransaction(L, d, lh, data) && SameHome(L, d, e)
    ensures SameHome(L, Updated(d, lh, data), Updated(e, lh, data))
  {
    forall k | L.IsHome(d, k)
      ensures Updated(d, lh, data)[k] == Updated(e, lh, data)[k]
    {
      if k in lh {
        var i :| 0 <= i < |lh| && lh[i] == k;
        UpdatedHit(d, lh, data, i);
        UpdatedHit(e, lh, data, i);
      } else {
        UpdatedMiss(d, lh, data, k);
        UpdatedMiss(e, lh, data, k);
      }
    }
  }

  lemma StepKeepsAtomic(L: Layout, m: Machine, e: Event, m': Machine)
    requires Atomic(L, m) && Next(L, m, e, m')
    ensures Atomic(L, m')
  {
    match e
    case Commit(lh, data) =>
      CommitStep(L, m, lh, data, CommitWrites(|lh|));
      if |lh| > 0 {
        FullCommit(L, m.disk, lh, data);
        UpdatedSameHome(L, m.disk, m.committed, lh, data);
      }
    case CrashInCommit(lh, data, writes) =>
      CommitStep(L, m, lh, data, writes);
    case Recovery =>
      CrashInRecoveryHarmless(L, m.disk, RecoveryWrites(L, m.disk));
    case CrashInRecovery(writes) =>
      CrashInRecoveryHarmless(L, m.disk, writes);
  }

  lemma CommitStep(L: Layout, m: Machine, lh: seq<nat>, data: seq<Block>, w: nat)
    requires Atomic(L, m) && m.up && GoodTransaction(L, m.disk, lh, data) && w <= CommitWrites(|lh|)
    ensures var e := CommitDisk(L, m.disk, lh, data, w);
            && GoodDisk(L, e)
            && SameHome(L, Recovered(L, e), if w <= |lh| then m.committed else Updated(m.committed, lh, data))
  {
    if w <= |lh| {
      CrashBeforeHeader(L, m.disk, lh, data, w);
    } else {
      CrashAfterHeader(L, m.disk, lh, data, w);
      UpdatedSameHome(L, m.disk, m.committed, lh, data);
    }
  }

  /** Crash atomicity over every run: whatever the crash points, recovery yields the home blocks of
      the last committed transaction, and never a mixture. */
  lemma {:induction false} CrashAtomicity(L: Layout, ms: seq<Machine>, es: seq<Event>)
    requires IsRun(L, ms, es)
    ensures forall i | 0 <= i < |ms| :: Atomic(L, ms[i])
    decreases |es|
  {
    EmptyRecovers(L, ms[0].disk);
    if |es| > 0 {
      var n := |es| - 1;
      assert IsRun(L, ms[..n + 1], es[..n]);
      CrashAtomicity(L, ms[..n + 1], es[..n]);
      assert ms[..n + 1][n] == ms[n];
      StepKeepsAtomic(L, ms[n], es[n], ms[n + 1]);
      forall i | 0 <= i < |ms|
        ensures Atomic(L, ms[i])
      {
        if i <= n {
          assert ms[..n + 1][i] == ms[i];
        }
      }
    }
  }
}
