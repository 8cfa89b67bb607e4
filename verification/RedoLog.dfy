/** The on-disk protocol of the redo log, on values: what each sequence of
    single-block writes does to the disk, and what recovery makes of every
    disk a crash can leave behind.  LogManager.dfy proves that the imperative
    code performs exactly these writes. */
module RedoLog {
  import opened Params
  import opened Sets

  /** A block is a row of 32-bit words; the log header lives in the first words
      of its block: the count, then the home block numbers. */
  type Block = seq<int>
  type Disk = seq<Block>

  const BLOCK_WORDS: nat := 128

  /** Where the log lives: the header is block `start`, the data blocks follow;
      `size` blocks in all belong to the log. */
  datatype Layout = Layout(start: nat, size: nat)

  predicate InLog(l: Layout, b: nat) {
    l.start <= b < l.start + l.size
  }

  ghost predicate IsDisk(l: Layout, d: Disk) {
    && 1 <= l.size && l.start + l.size <= |d|
    && forall b :: 0 <= b < |d| ==> |d[b]| == BLOCK_WORDS
  }

  /** Block numbers a transaction may log: distinct, on the disk, outside the log. */
  ghost predicate Loggable(l: Layout, d: Disk, blocks: seq<int>) {
    && |blocks| <= LOGSIZE && |blocks| < l.size
    && Distinct(blocks)
    && forall i :: 0 <= i < |blocks| ==> 0 <= blocks[i] < |d| && !InLog(l, blocks[i])
  }

  /** The header as read_head sees it. */
  function HeadCount(h: Block): int
    requires |h| == BLOCK_WORDS
  {
    h[0]
  }

  function HeadBlocks(h: Block): (r: seq<int>)
    requires |h| == BLOCK_WORDS && 0 <= HeadCount(h) < BLOCK_WORDS
  {
    h[1..1 + HeadCount(h)]
  }

  /** The header write_head leaves: the words behind the last entry keep their old value. */
  function WithHead(h: Block, blocks: seq<int>): (r: Block)
    requires |h| == BLOCK_WORDS && |blocks| <= LOGSIZE
    ensures |r| == BLOCK_WORDS && HeadCount(r) == |blocks| && HeadBlocks(r) == blocks
  {
    [|blocks|] + blocks + h[1 + |blocks|..]
  }

  /** A disk whose header names a transaction that recovery can install. */
  ghost predicate Recoverable(l: Layout, d: Disk) {
    && IsDisk(l, d)
    && 0 <= HeadCount(d[l.start]) <= LOGSIZE
    && Loggable(l, d, HeadBlocks(d[l.start]))
  }

  /** The disk after the first k passes of install_trans. */
  ghost function Install(l: Layout, d: Disk, blocks: seq<int>, k: nat): (r: Disk)
    requires IsDisk(l, d) && Loggable(l, d, blocks) && k <= |blocks|
    ensures IsDisk(l, r) && |r| == |d|
    ensures forall b :: 0 <= b < |d| && InLog(l, b) ==> r[b] == d[b]
  {
    if k == 0 then d
    else
      var p := Install(l, d, blocks, k - 1);
      p[blocks[k - 1] := p[l.start + k]]
  }

  ghost function ClearHead(l: Layout, d: Disk): (r: Disk)
    requires IsDisk(l, d)
    ensures IsDisk(l, r) && |r| == |d|
  {
    d[l.start := WithHead(d[l.start], [])]
  }

  /** What a recovery that is left alone makes of a disk. */
  ghost function Recover(l: Layout, d: Disk): (r: Disk)
    requires Recoverable(l, d)
  {
    var bs := HeadBlocks(d[l.start]);
    ClearHead(l, Install(l, d, bs, |bs|))
  }

  /** Every disk recovery passes through, one for each block it writes. */
  ghost function RecoveryTrace(l: Layout, d: Disk): (r: seq<Disk>)
    requires Recoverable(l, d)
  {
    InstallTrace(l, d, HeadBlocks(d[l.start]), |HeadBlocks(d[l.start])|) + [Recover(l, d)]
  }

  ghost function InstallTrace(l: Layout, d: Disk, blocks: seq<int>, k: nat): (r: seq<Disk>)
    requires IsDisk(l, d) && Loggable(l, d, blocks) && k <= |blocks|
    ensures |r| == k && forall i :: 0 <= i < k ==> r[i] == Install(l, d, blocks, i + 1)
  {
    if k == 0 then [] else InstallTrace(l, d, blocks, k - 1) + [Install(l, d, blocks, k)]
  }

  /** The disk after write_log has copied the first k modified blocks. */
  ghost function Logged(l: Layout, d: Disk, vals: seq<Block>, k: nat): (r: Disk)
    requires IsDisk(l, d) && k <= |vals| < l.size && (forall i :: 0 <= i < |vals| ==> |vals[i]| == BLOCK_WORDS)
    ensures IsDisk(l, r) && |r| == |d|
    ensures forall b :: 0 <= b < |d| && !(l.start < b <= l.start + k) ==> r[b] == d[b]
    ensures forall i :: 0 <= i < k ==> r[l.start + 1 + i] == vals[i]
  {
    if k == 0 then d else Logged(l, d, vals, k - 1)[l.start + k := vals[k - 1]]
  }

  ghost function LoggedTrace(l: Layout, d: Disk, vals: seq<Block>, k: nat): (r: seq<Disk>)
    requires IsDisk(l, d) && k <= |vals| < l.size && (forall i :: 0 <= i < |vals| ==> |vals[i]| == BLOCK_WORDS)
    ensures |r| == k && forall i :: 0 <= i < k ==> r[i] == Logged(l, d, vals, i + 1)
  {
    if k == 0 then [] else LoggedTrace(l, d, vals, k - 1) + [Logged(l, d, vals, k)]
  }

  /** A transaction: the logged home blocks and the new value of each. */
  datatype Txn = Txn(blocks: seq<int>, vals: seq<Block>)

  ghost predicate Committable(l: Layout, d: Disk, t: Txn) {
    && IsDisk(l, d) && Loggable(l, d, t.blocks) && |t.vals| == |t.blocks|
    && (forall i :: 0 <= i < |t.vals| ==> |t.vals[i]| == BLOCK_WORDS)
    && HeadCount(d[l.start]) == 0
  }

  /** The disk at the commit point: the log is full and the header names it. */
  ghost function Published(l: Layout, d: Disk, t: Txn): (r: Disk)
    requires Committable(l, d, t)
    ensures IsDisk(l, r) && |r| == |d|
  {
    Logged(l, d, t.vals, |t.vals|)[l.start := WithHead(d[l.start], t.blocks)]
  }

  /** Every disk commit passes through, one for each block it writes. */
  ghost function CommitTrace(l: Layout, d: Disk, t: Txn): (r: seq<Disk>)
    requires Committable(l, d, t)
  {
    if |t.blocks| == 0 then []
    else
      var p := Published(l, d, t);
      LoggedTrace(l, d, t.vals, |t.vals|) + [p]
      + InstallTrace(l, p, t.blocks, |t.blocks|)
      + [ClearHead(l, Install(l, p, t.blocks, |t.blocks|))]
  }

  /** Two disks that agree on every block outside the log. */
  ghost predicate SameHome(l: Layout, d: Disk, e: Disk) {
    |d| == |e| && forall b :: 0 <= b < |d| && !InLog(l, b) ==> d[b] == e[b]
  }

  /** The home blocks of `e` are those of `d` with every logged block replaced. */
  ghost predicate Applied(l: Layout, d: Disk, t: Txn, e: Disk)
    requires |t.vals| == |t.blocks|
  {
    && |e| == |d|
    && (forall b :: 0 <= b < |d| && !InLog(l, b) && b !in t.blocks ==> e[b] == d[b])
    && (forall i :: 0 <= i < |t.blocks| ==> 0 <= t.blocks[i] < |d| && e[t.blocks[i]] == t.vals[i])
  }

  /** A chain of recoveries each cut short by a crash: every disk is one that
      recovery of the previous disk passes through. */
  ghost predicate CrashChain(l: Layout, ds: seq<Disk>) {
    && |ds| > 0
    && forall i :: 0 <= i < |ds| - 1 ==>
         Recoverable(l, ds[i]) && (ds[i + 1] == ds[i] || ds[i + 1] in RecoveryTrace(l, ds[i]))
  }

  // ---- what a partial installation looks like

  lemma {:induction false} InstallAt(l: Layout, d: Disk, blocks: seq<int>, k: nat, i: nat)
    requires IsDisk(l, d) && Loggable(l, d, blocks) && i < k <= |blocks|
    ensures Install(l, d, blocks, k)[blocks[i]] == d[l.start + 1 + i]
  {
    if i < k - 1 { InstallAt(l, d, blocks, k - 1, i); }
  }

  lemma {:induction false} InstallElsewhere(l: Layout, d: Disk, blocks: seq<int>, k: nat, b: nat)
    requires IsDisk(l, d) && Loggable(l, d, blocks) && k <= |blocks|
    requires b < |d| && forall i :: 0 <= i < k ==> blocks[i] != b
    ensures Install(l, d, blocks, k)[b] == d[b]
  {
    if k > 0 { InstallElsewhere(l, d, blocks, k - 1, b); }
  }

  /** Installing from the start again over a partial installation ends in the
      same disk as the uninterrupted installation. */
  lemma {:induction false} ReinstallAbsorbs(l: Layout, d: Disk, blocks: seq<int>, k: nat)
    requires IsDisk(l, d) && Loggable(l, d, blocks) && k <= |blocks|
    ensures Loggable(l, Install(l, d, blocks, k), blocks)
    ensures Install(l, Install(l, d, blocks, k), blocks, |blocks|) == Install(l, d, blocks, |blocks|)
  {
    var p := Install(l, d, blocks, k);
    var n := |blocks|;
    forall b: nat | b < |d|
      ensures Install(l, p, blocks, n)[b] == Install(l, d, blocks, n)[b]
    {
      if i: nat :| i < n && blocks[i] == b {
        InstallAt(l, p, blocks, n, i);
        InstallAt(l, d, blocks, n, i);
      } else {
        InstallElsewhere(l, p, blocks, n, b);
        InstallElsewhere(l, d, blocks, n, b);
        InstallElsewhere(l, d, blocks, k, b);
      }
    }
  }

  // ---- recovery

  /** Recovery clears the header and a second recovery changes nothing. */
  lemma RecoverClears(l: Layout, d: Disk)
    requires Recoverable(l, d)
    ensures Recoverable(l, Recover(l, d)) && HeadCount(Recover(l, d)[l.start]) == 0
    ensures Recover(l, Recover(l, d)) == Recover(l, d)
  {
    var r := Recover(l, d);
    assert HeadBlocks(r[l.start]) == [];
    assert r[l.start] == WithHead(r[l.start], []);
    assert Recover(l, r) == r;
  }

  /** Whatever disk a crash in the middle of recovery leaves, recovering it
      ends where the uninterrupted recovery would have ended. */
  lemma RecoveryRestarts(l: Layout, d: Disk, e: Disk)
    requires Recoverable(l, d) && (e == d || e in RecoveryTrace(l, d))
    ensures Recoverable(l, e) && Recover(l, e) == Recover(l, d)
  {
    var bs := HeadBlocks(d[l.start]);
    if e != d {
      var it := InstallTrace(l, d, bs, |bs|);
      if e == Recover(l, d) {
        RecoverClears(l, d);
      } else {
        assert e in it;
        var i :| 0 <= i < |it| && it[i] == e;
        ReinstallAbsorbs(l, d, bs, i + 1);
        assert HeadBlocks(e[l.start]) == bs;
      }
    }
  }

  /** Any number of crashed recoveries, then one that completes. */
  lemma {:induction false} CrashChainRecovers(l: Layout, ds: seq<Disk>)
    requires CrashChain(l, ds) && Recoverable(l, ds[0])
    ensures Recoverable(l, ds[|ds| - 1])
    ensures Recover(l, ds[|ds| - 1]) == Recover(l, ds[0])
    decreases |ds|
  {
    if |ds| > 1 {
      var init := ds[..|ds| - 1];
      CrashChainRecovers(l, init);
      RecoveryRestarts(l, init[|init| - 1], ds[|ds| - 1]);
    }
  }

  // ---- commit

  /** Before the header is published, recovery finds the old home blocks. */
  lemma RecoverUnpublished(l: Layout, d: Disk, e: Disk)
    requires IsDisk(l, d) && IsDisk(l, e) && SameHome(l, d, e)
    requires e[l.start] == d[l.start] && HeadCount(d[l.start]) == 0
    ensures Recoverable(l, e) && SameHome(l, d, Recover(l, e))
  {
    assert HeadBlocks(e[l.start]) == [];
  }

  lemma PublishedInstalls(l: Layout, d: Disk, t: Txn)
    requires Committable(l, d, t)
    ensures Loggable(l, Published(l, d, t), t.blocks)
    ensures Applied(l, d, t, Install(l, Published(l, d, t), t.blocks, |t.blocks|))
  {
    var p := Published(l, d, t);
    var n := |t.blocks|;
    forall i: nat | i < n
      ensures Install(l, p, t.blocks, n)[t.blocks[i]] == t.vals[i]
    {
      InstallAt(l, p, t.blocks, n, i);
    }
    forall b: nat | b < |d| && !InLog(l, b) && b !in t.blocks
      ensures Install(l, p, t.blocks, n)[b] == d[b]
    {
      InstallElsewhere(l, p, t.blocks, n, b);
    }
  }

  lemma HeadSurvives(l: Layout, d: Disk, t: Txn, k: nat)
    requires Committable(l, d, t) && k <= |t.blocks| && Loggable(l, Published(l, d, t), t.blocks)
    ensures var e := Install(l, Published(l, d, t), t.blocks, k);
            HeadCount(e[l.start]) == |t.blocks| && HeadBlocks(e[l.start]) == t.blocks
  {
  }

  /** From the moment the header is published, recovery finds the new ones. */
  lemma RecoverPublished(l: Layout, d: Disk, t: Txn, k: nat)
    requires Committable(l, d, t) && k <= |t.blocks|
    ensures Loggable(l, Published(l, d, t), t.blocks)
    ensures var e := Install(l, Published(l, d, t), t.blocks, k);
            Recoverable(l, e) && Applied(l, d, t, Recover(l, e))
  {
    PublishedInstalls(l, d, t);
    HeadSurvives(l, d, t, k);
    ReinstallAbsorbs(l, Published(l, d, t), t.blocks, k);
  }

  /** The i-th disk of a commit, by the stage it belongs to. */
  lemma CommitTraceAt(l: Layout, d: Disk, t: Txn, i: nat)
    requires Committable(l, d, t) && i < |CommitTrace(l, d, t)|
    ensures Loggable(l, Published(l, d, t), t.blocks)
    ensures var n, p, e := |t.blocks|, Published(l, d, t), CommitTrace(l, d, t)[i];
            && n > 0 && |CommitTrace(l, d, t)| == 2 * n + 2
            && (i < n ==> e == Logged(l, d, t.vals, i + 1))
            && (n <= i <= 2 * n ==> e == Install(l, p, t.blocks, i - n))
            && (i == 2 * n + 1 ==> e == ClearHead(l, Install(l, p, t.blocks, n)))
  {
    hide Install, InstallTrace, Logged, LoggedTrace, ClearHead, Published, Loggable, IsDisk, Applied, WithHead;
    PublishedInstalls(l, d, t);
    InstallNone(l, Published(l, d, t), t.blocks);
    var n, p := |t.blocks|, Published(l, d, t);
    var logged, installed := LoggedTrace(l, d, t.vals, n), InstallTrace(l, p, t.blocks, n);
    if i < n {
      assert CommitTrace(l, d, t)[i] == logged[i];
    } else if n < i <= 2 * n {
      assert CommitTrace(l, d, t)[i] == installed[i - n - 1];
    }
  }

  lemma InstallNone(l: Layout, d: Disk, blocks: seq<int>)
    requires IsDisk(l, d) && Loggable(l, d, blocks)
    ensures Install(l, d, blocks, 0) == d
  {
  }

  lemma CommitCleared(l: Layout, d: Disk, t: Txn)
    requires Committable(l, d, t) && Loggable(l, Published(l, d, t), t.blocks)
    ensures var e := ClearHead(l, Install(l, Published(l, d, t), t.blocks, |t.blocks|));
            Recoverable(l, e) && Applied(l, d, t, Recover(l, e)) && HeadCount(e[l.start]) == 0
  {
    var p, n := Published(l, d, t), |t.blocks|;
    var full := Install(l, p, t.blocks, n);
    RecoverPublished(l, d, t, n);
    HeadSurvives(l, d, t, n);
    ReinstallAbsorbs(l, p, t.blocks, n);
    assert ClearHead(l, full) == Recover(l, full);
    RecoverClears(l, full);
  }

  /** Commit is atomic under crashes: recovery of any disk that commit passes
      through finds the home blocks either all old or all new, and never goes
      back from new to old as commit advances. */
  lemma CommitStepAtomic(l: Layout, d: Disk, t: Txn, i: nat)
    requires Committable(l, d, t) && i < |CommitTrace(l, d, t)|
    ensures var e := CommitTrace(l, d, t)[i];
            && Recoverable(l, e)
            && (i < |t.blocks| ==> SameHome(l, d, e) && SameHome(l, d, Recover(l, e)))
            && (i >= |t.blocks| ==> Applied(l, d, t, Recover(l, e)))
  {
    hide CommitTrace, Published, Install, Recover, Applied;
    CommitTraceAt(l, d, t, i);
    var n := |t.blocks|;
    if i < n {
      RecoverUnpublished(l, d, Logged(l, d, t.vals, i + 1));
    } else if i <= 2 * n {
      RecoverPublished(l, d, t, i - n);
    } else {
      CommitCleared(l, d, t);
    }
  }

  /** The whole story: crash at any point of commit, let any number of
      recoveries crash in turn, and let one complete.  The home blocks are then
      exactly the old ones or exactly the new ones, and the header is clear. */
  lemma CommitCrashAtomic(l: Layout, d: Disk, t: Txn, ds: seq<Disk>)
    requires Committable(l, d, t) && CrashChain(l, ds)
    requires ds[0] == d || ds[0] in CommitTrace(l, d, t)
    ensures Recoverable(l, ds[|ds| - 1])
    ensures var r := Recover(l, ds[|ds| - 1]);
            (SameHome(l, d, r) || Applied(l, d, t, r)) && HeadCount(r[l.start]) == 0
  {
    if ds[0] == d {
      RecoverUnpublished(l, d, d);
    } else {
      var i :| 0 <= i < |CommitTrace(l, d, t)| && CommitTrace(l, d, t)[i] == ds[0];
      CommitStepAtomic(l, d, t, i);
    }
    CrashChainRecovers(l, ds);
    RecoverClears(l, ds[|ds| - 1]);
  }

  /** A commit that is not interrupted installs the transaction and clears the header. */
  lemma CommitCompletes(l: Layout, d: Disk, t: Txn)
    requires Committable(l, d, t) && |t.blocks| > 0
    ensures var tr := CommitTrace(l, d, t);
            |tr| == 2 * |t.blocks| + 2 && Applied(l, d, t, tr[|tr| - 1])
            && IsDisk(l, tr[|tr| - 1]) && HeadCount(tr[|tr| - 1][l.start]) == 0
  {
    CommitTraceAt(l, d, t, 2 * |t.blocks| + 1);
    PublishedInstalls(l, d, t);
  }

  // ---- many transactions

  /** Transactions committed one after the other, each from the disk the one
      before it left. */
  ghost predicate AllCommittable(l: Layout, d: Disk, ts: seq<Txn>)
    decreases |ts|
  {
    ts == [] || (Committable(l, d, ts[0]) && AllCommittable(l, CommitEnd(l, d, ts[0]), ts[1..]))
  }

  ghost function CommitEnd(l: Layout, d: Disk, t: Txn): Disk
    requires Committable(l, d, t)
  {
    if t.blocks == [] then d else CommitTrace(l, d, t)[|CommitTrace(l, d, t)| - 1]
  }

  /** The disk once all of them are committed. */
  ghost function AfterAll(l: Layout, d: Disk, ts: seq<Txn>): Disk
    requires AllCommittable(l, d, ts)
    decreases |ts|
  {
    if ts == [] then d else AfterAll(l, CommitEnd(l, d, ts[0]), ts[1..])
  }

  /** Every disk on the way. */
  ghost function RunTrace(l: Layout, d: Disk, ts: seq<Txn>): seq<Disk>
    requires AllCommittable(l, d, ts)
    decreases |ts|
  {
    if ts == [] then [d] else [d] + CommitTrace(l, d, ts[0]) + RunTrace(l, CommitEnd(l, d, ts[0]), ts[1..])
  }

  lemma {:induction false} PrefixCommittable(l: Layout, d: Disk, ts: seq<Txn>, j: nat)
    requires AllCommittable(l, d, ts) && j <= |ts|
    ensures AllCommittable(l, d, ts[..j])
    decreases j
  {
    if j > 0 {
      PrefixCommittable(l, CommitEnd(l, d, ts[0]), ts[1..], j - 1);
      assert ts[..j][1..] == ts[1..][..j - 1];
    }
  }

  lemma CommitEndApplied(l: Layout, d: Disk, t: Txn)
    requires Committable(l, d, t)
    ensures var e := CommitEnd(l, d, t);
            IsDisk(l, e) && HeadCount(e[l.start]) == 0 && Applied(l, d, t, e)
  {
    if t.blocks != [] { CommitCompletes(l, d, t); }
  }

  /** How many of the transactions a crash at the k-th disk of the run leaves:
      those committed before, and the one in progress if its header is on disk. */
  ghost function Survivors(l: Layout, d: Disk, ts: seq<Txn>, k: nat): (j: nat)
    requires AllCommittable(l, d, ts)
    ensures j <= |ts|
    decreases |ts|
  {
    if ts == [] || k == 0 then 0
    else
      var n := |CommitTrace(l, d, ts[0])|;
      if k <= n then if k > |ts[0].blocks| then 1 else 0
      else 1 + Survivors(l, CommitEnd(l, d, ts[0]), ts[1..], k - 1 - n)
  }

  /** Where in the run the header of transaction m has just been written. */
  ghost function HeaderAt(l: Layout, d: Disk, ts: seq<Txn>, m: nat): nat
    requires AllCommittable(l, d, ts) && m < |ts|
    decreases |ts|
  {
    if m == 0 then 1 + |ts[0].blocks|
    else 1 + |CommitTrace(l, d, ts[0])| + HeaderAt(l, CommitEnd(l, d, ts[0]), ts[1..], m - 1)
  }

  /** A transaction survives a crash exactly if its header was on disk by then. */
  lemma {:induction false} SurvivesIff(l: Layout, d: Disk, ts: seq<Txn>, k: nat, m: nat)
    requires AllCommittable(l, d, ts) && m < |ts|
    ensures m < Survivors(l, d, ts, k) <==> k >= HeaderAt(l, d, ts, m)
    decreases |ts|
  {
    hide CommitTrace, Committable, CommitEnd;
    CommitLength(l, d, ts[0]);
    var n := |CommitTrace(l, d, ts[0])|;
    if m > 0 && k > n { SurvivesIff(l, CommitEnd(l, d, ts[0]), ts[1..], k - 1 - n, m - 1); }
  }

  lemma CommitLength(l: Layout, d: Disk, t: Txn)
    requires Committable(l, d, t)
    ensures |CommitTrace(l, d, t)| == if t.blocks == [] then 0 else 2 * |t.blocks| + 2
  {
    if t.blocks != [] { CommitCompletes(l, d, t); }
  }

  /** Crash at any disk of a run of transactions, crash any number of times while
      recovering: the recovered home blocks are those after exactly the
      transactions whose header was on disk at the crash. */
  lemma {:induction false} RunCrashPrefix(l: Layout, d: Disk, ts: seq<Txn>, ds: seq<Disk>, k: nat)
    requires IsDisk(l, d) && HeadCount(d[l.start]) == 0 && AllCommittable(l, d, ts)
    requires CrashChain(l, ds) && k < |RunTrace(l, d, ts)| && ds[0] == RunTrace(l, d, ts)[k]
    ensures var j := Survivors(l, d, ts, k);
            && AllCommittable(l, d, ts[..j]) && Recoverable(l, ds[|ds| - 1])
            && SameHome(l, AfterAll(l, d, ts[..j]), Recover(l, ds[|ds| - 1]))
    decreases |ts|
  {
    hide CommitTrace, Applied, Recover, Recoverable, Committable;
    PrefixCommittable(l, d, ts, 0);
    if k == 0 {
      assert ds[0] == d;
      RecoverUnpublished(l, d, d);
      CrashChainRecovers(l, ds);
    } else {
      var t, e := ts[0], CommitEnd(l, d, ts[0]);
      var n := |CommitTrace(l, d, t)|;
      CommitEndApplied(l, d, t);
      if k <= n {
        assert ds[0] == CommitTrace(l, d, t)[k - 1];
        CommitStepAtomic(l, d, t, k - 1);
        CrashChainRecovers(l, ds);
        if k > |t.blocks| {
          PrefixCommittable(l, d, ts, 1);
          OneCommitted(l, d, ts);
          AppliedTwice(l, d, t, e, Recover(l, ds[|ds| - 1]));
        }
      } else {
        assert ds[0] == RunTrace(l, e, ts[1..])[k - 1 - n];
        RunCrashPrefix(l, e, ts[1..], ds, k - 1 - n);
        var j := Survivors(l, d, ts, k);
        PrefixCommittable(l, d, ts, j);
        assert ts[..j][1..] == ts[1..][..j - 1];
      }
    }
  }

  lemma OneCommitted(l: Layout, d: Disk, ts: seq<Txn>)
    requires AllCommittable(l, d, ts) && ts != [] && AllCommittable(l, d, ts[..1])
    ensures AfterAll(l, d, ts[..1]) == CommitEnd(l, d, ts[0])
  {
    assert ts[..1][1..] == [];
  }

  /** The disks the commits of a run write, one after the other. */
  ghost function Commits(l: Layout, d: Disk, ts: seq<Txn>): seq<Disk>
    requires AllCommittable(l, d, ts)
    decreases |ts|
  {
    if ts == [] then [] else CommitTrace(l, d, ts[0]) + Commits(l, CommitEnd(l, d, ts[0]), ts[1..])
  }

  /** Each of them is a disk of the run, so the crash theorem covers it. */
  lemma {:induction false} CommitsInRun(l: Layout, d: Disk, ts: seq<Txn>, e: Disk) returns (k: nat)
    requires AllCommittable(l, d, ts) && (e == d || e in Commits(l, d, ts))
    ensures k < |RunTrace(l, d, ts)| && RunTrace(l, d, ts)[k] == e
    decreases |ts|
  {
    hide CommitTrace, Committable;
    if e == d {
      k := 0;
    } else {
      var tr, f := CommitTrace(l, d, ts[0]), CommitEnd(l, d, ts[0]);
      if e in tr {
        var i :| 0 <= i < |tr| && tr[i] == e;
        k := i + 1;
      } else {
        var i := CommitsInRun(l, f, ts[1..], e);
        k := 1 + |tr| + i;
      }
    }
  }

  /** Crash at any disk a run of commits leaves, recover with any number of crashes
      on the way: the home blocks are those after some first j of the commits. */
  lemma CrashInCommits(l: Layout, d: Disk, ts: seq<Txn>, ds: seq<Disk>) returns (j: nat)
    requires IsDisk(l, d) && HeadCount(d[l.start]) == 0 && AllCommittable(l, d, ts)
    requires CrashChain(l, ds) && (ds[0] == d || ds[0] in Commits(l, d, ts))
    ensures j <= |ts| && AllCommittable(l, d, ts[..j]) && Recoverable(l, ds[|ds| - 1])
    ensures SameHome(l, AfterAll(l, d, ts[..j]), Recover(l, ds[|ds| - 1]))
  {
    var k := CommitsInRun(l, d, ts, ds[0]);
    RunCrashPrefix(l, d, ts, ds, k);
    j := Survivors(l, d, ts, k);
  }

  /** A run that commits one more transaction. */
  lemma {:induction false} CommitsMore(l: Layout, d: Disk, ts: seq<Txn>, t: Txn)
    requires AllCommittable(l, d, ts) && Committable(l, AfterAll(l, d, ts), t)
    ensures AllCommittable(l, d, ts + [t])
    ensures Commits(l, d, ts + [t]) == Commits(l, d, ts) + CommitTrace(l, AfterAll(l, d, ts), t)
    ensures AfterAll(l, d, ts + [t]) == CommitEnd(l, AfterAll(l, d, ts), t)
    decreases |ts|
  {
    hide CommitTrace, Committable, CommitEnd;
    if ts == [] {
      assert ts + [t] == [t] && [t][1..] == [];
    } else {
      CommitsMore(l, CommitEnd(l, d, ts[0]), ts[1..], t);
      assert (ts + [t])[1..] == ts[1..] + [t];
    }
  }

  /** A transaction determines every home block. */
  lemma AppliedTwice(l: Layout, d: Disk, t: Txn, e: Disk, r: Disk)
    requires Committable(l, d, t) && Applied(l, d, t, e) && Applied(l, d, t, r)
    ensures SameHome(l, e, r)
  {
    forall b | 0 <= b < |e| && !InLog(l, b)
      ensures e[b] == r[b]
    {
      if b in t.blocks {
        var i :| 0 <= i < |t.blocks| && t.blocks[i] == b;
      }
    }
  }
}
