/** What the copying loops of log.c do to the cache and the disk, on values, and
    how that is what RedoLog.dfy says about the disk alone. */
module LogSteps {
  import opened Params
  import opened RedoLog
  import opened Sets
  import opened BufferCache

  /** memmove from the buffer of src to that of dst, then bwrite dst. */
  ghost function Copied(v: View, src: nat, dst: nat): View
    requires |v.seen| == |v.disk| && src < |v.seen| && dst < |v.seen|
  {
    Written(v, dst, v.seen[src])
  }

  ghost function Written(v: View, dst: nat, data: Block): View
    requires |v.seen| == |v.disk| && dst < |v.seen|
  {
    v.(disk := v.disk[dst := data], history := v.history + [v.disk[dst := data]],
       seen := v.seen[dst := data], dirties := v.dirties - {dst})
  }

  /** Between calls of the log: a buffer is pinned exactly when its block is in
      the in-memory header, the header on the disk is clear, and nobody holds a
      block of the log itself. */
  ghost predicate Settled(l: Layout, v: View, e: seq<int>) {
    && IsDisk(l, v.disk) && HeadCount(v.disk[l.start]) == 0
    && Loggable(l, v.disk, e)
    && (forall b: nat :: b in v.dirties <==> b in e)
    && (forall b :: b in v.held ==> !InLog(l, b))
  }

  /** The cache and the in-memory header fit together: the entries can be
      logged, and nobody holds or pins a block of the log itself. */
  ghost predicate LogOk(l: Layout, v: View, e: seq<int>) {
    && Coherent(v) && IsDisk(l, v.disk) && Loggable(l, v.disk, e)
    && (forall b :: b in v.held ==> !InLog(l, b) && b !in e)
    && (forall b :: b in v.dirties ==> !InLog(l, b))
  }

  /** After k passes of write_log. */
  ghost function WriteLog(l: Layout, v: View, e: seq<int>, k: nat): (r: View)
    requires LogOk(l, v, e) && k <= |e|
    ensures LogOk(l, r, e) && |r.disk| == |v.disk| && r.held == v.held && r.dirties == v.dirties
    ensures SameHome(l, v.seen, r.seen)
  {
    if k == 0 then v else Copied(WriteLog(l, v, e, k - 1), e[k - 1], l.start + k)
  }

  /** After k passes of install_trans. */
  ghost function InstallTrans(l: Layout, v: View, e: seq<int>, k: nat): (r: View)
    requires LogOk(l, v, e) && k <= |e|
    ensures LogOk(l, r, e) && |r.disk| == |v.disk| && r.held == v.held && r.dirties <= v.dirties
  {
    if k == 0 then v else Copied(InstallTrans(l, v, e, k - 1), l.start + k, e[k - 1])
  }

  /** A home block and a log block that a copying loop may read. */
  ghost predicate CopyOk(l: Layout, v: View, home: int, log: nat) {
    && |v.seen| == |v.disk| && 0 <= home < |v.disk| && log < |v.disk| && home != log
    && home !in v.held && log !in v.held
  }

  lemma WriteLogStep(l: Layout, v: View, e: seq<int>, k: nat)
    requires LogOk(l, v, e) && k <= |e|
    ensures WriteLog(l, v, e, 0) == v
    ensures LogOk(l, WriteLog(l, v, e, k), e)
    ensures WriteLog(l, v, e, k).dirties == v.dirties && WriteLog(l, v, e, k).held == v.held
    ensures k < |e| ==> CopyOk(l, WriteLog(l, v, e, k), e[k], l.start + k + 1)
                        && WriteLog(l, v, e, k + 1) == Copied(WriteLog(l, v, e, k), e[k], l.start + k + 1)
  {
  }

  lemma InstallTransStep(l: Layout, v: View, e: seq<int>, k: nat)
    requires LogOk(l, v, e) && k <= |e|
    ensures InstallTrans(l, v, e, 0) == v
    ensures LogOk(l, InstallTrans(l, v, e, k), e)
    ensures k < |e| ==> CopyOk(l, InstallTrans(l, v, e, k), e[k], l.start + k + 1)
                        && InstallTrans(l, v, e, k + 1) == Copied(InstallTrans(l, v, e, k), l.start + k + 1, e[k])
    ensures InstallTrans(l, v, e, k).dirties <= v.dirties && InstallTrans(l, v, e, k).held == v.held
  {
  }

  /** After write_head. */
  ghost function WriteHead(l: Layout, v: View, e: seq<int>): (r: View)
    requires Coherent(v) && IsDisk(l, v.disk) && |e| <= LOGSIZE
  {
    Written(v, l.start, WithHead(v.disk[l.start], e))
  }

  /** The values of the logged blocks as readers see them. */
  ghost function Vals(seen: Disk, e: seq<int>): (r: seq<Block>)
    requires Blocks(seen) && forall i :: 0 <= i < |e| ==> 0 <= e[i] < |seen|
    ensures |r| == |e| && forall i :: 0 <= i < |e| ==> |r[i]| == BLOCK_WORDS
  {
    seq(|e|, i requires 0 <= i < |e| => seen[e[i]])
  }

  lemma {:induction false} WriteLogDisk(l: Layout, v: View, e: seq<int>, k: nat)
    requires LogOk(l, v, e) && k <= |e|
    ensures var r := WriteLog(l, v, e, k);
            && r.disk == Logged(l, v.disk, Vals(v.seen, e), k)
            && r.history == v.history + LoggedTrace(l, v.disk, Vals(v.seen, e), k)
  {
    var vals := Vals(v.seen, e);
    if k > 0 {
      hide SameHome, Coherent;
      WriteLogDisk(l, v, e, k - 1);
      var w := WriteLog(l, v, e, k - 1);
      SameAt(l, v.seen, w.seen, e[k - 1]);
      assert w.seen[e[k - 1]] == vals[k - 1];
      assert LoggedTrace(l, v.disk, vals, k) == LoggedTrace(l, v.disk, vals, k - 1) + [Logged(l, v.disk, vals, k)];
    }
  }

  /** No home block and not the header changes on the disk while write_log runs:
      write-ahead. */
  lemma HomeUntouched(l: Layout, v: View, e: seq<int>, k: nat)
    requires LogOk(l, v, e) && k <= |e|
    ensures var r := WriteLog(l, v, e, k);
            SameHome(l, v.disk, r.disk) && l.start < |v.disk| && r.disk[l.start] == v.disk[l.start]
            && |v.history| <= |r.history|
            && forall d :: d in r.history[|v.history|..] ==> SameHome(l, v.disk, d) && d[l.start] == v.disk[l.start]
  {
    hide Distinct, SameHome, Written, LogOk, WriteLog, Logged, LoggedTrace, Coherent;
    WriteLogDisk(l, v, e, k);
    EntriesFit(l, v, e);
    var vals, r := Vals(v.seen, e), WriteLog(l, v, e, k);
    HomeLogged(l, v.disk, vals, k);
    var tr := LoggedTrace(l, v.disk, vals, k);
    assert r.history[|v.history|..] == tr;
    forall i | 0 <= i < |tr| ensures SameHome(l, v.disk, tr[i]) && tr[i][l.start] == v.disk[l.start] {
      HomeLogged(l, v.disk, vals, i + 1);
    }
  }

  lemma EntriesFit(l: Layout, v: View, e: seq<int>)
    requires LogOk(l, v, e)
    ensures IsDisk(l, v.disk) && |e| < l.size && l.start < |v.disk|
    ensures Blocks(v.seen) && forall i :: 0 <= i < |e| ==> 0 <= e[i] < |v.seen|
  {
  }

  lemma HomeLogged(l: Layout, d: Disk, vals: seq<Block>, k: nat)
    requires IsDisk(l, d) && k <= |vals| < l.size && (forall i :: 0 <= i < |vals| ==> |vals[i]| == BLOCK_WORDS)
    ensures SameHome(l, d, Logged(l, d, vals, k)) && Logged(l, d, vals, k)[l.start] == d[l.start]
  {
  }

  /** A log block reads as it is on disk. */
  lemma LogSeen(l: Layout, v: View, e: seq<int>, k: nat)
    requires LogOk(l, v, e) && 1 <= k <= |e|
    ensures l.start + k < |v.disk| == |v.seen| && InLog(l, l.start + k) && v.seen[l.start + k] == v.disk[l.start + k]
    ensures 0 <= e[k - 1] < |v.disk| && !InLog(l, e[k - 1])
  {
  }

  lemma {:induction false} InstallTransDisk(l: Layout, v: View, e: seq<int>, k: nat)
    requires LogOk(l, v, e) && k <= |e|
    ensures var r := InstallTrans(l, v, e, k);
            && r.disk == Install(l, v.disk, e, k)
            && r.history == v.history + InstallTrace(l, v.disk, e, k)
  {
    hide Coherent, Distinct, Written;
    if k > 0 {
      InstallTransDisk(l, v, e, k - 1);
      LogSeen(l, InstallTrans(l, v, e, k - 1), e, k);
      InstalledNow(l, v, e, k);
      assert InstallTrace(l, v.disk, e, k) == InstallTrace(l, v.disk, e, k - 1) + [Install(l, v.disk, e, k)];
    }
  }

  lemma {:induction false} InstallTransDirties(l: Layout, v: View, e: seq<int>, k: nat)
    requires LogOk(l, v, e) && k <= |e|
    ensures forall b: nat :: b in InstallTrans(l, v, e, k).dirties <==> b in v.dirties && b !in e[..k]
  {
    if k > 0 {
      InstallTransDirties(l, v, e, k - 1);
      assert e[..k] == e[..k - 1] + [e[k - 1]];
    }
  }

  /** Readers never notice: what they see outside the log is the same before,
      during and after the installation of what they already saw. */
  lemma {:induction false} InstallTransSeen(l: Layout, v: View, e: seq<int>, k: nat)
    requires LogOk(l, v, e) && k <= |e|
    requires forall i :: 0 <= i < |e| ==> v.disk[l.start + 1 + i] == v.seen[e[i]]
    ensures SameHome(l, v.seen, InstallTrans(l, v, e, k).seen)
    ensures forall i :: 0 <= i < |e| ==> InstallTrans(l, v, e, k).disk[l.start + 1 + i] == v.seen[e[i]]
  {
    hide Coherent, Distinct, LogOk;
    if k > 0 {
      InstallTransSeen(l, v, e, k - 1);
      LogSeen(l, InstallTrans(l, v, e, k - 1), e, k);
      LogSeen(l, v, e, k);
      LogRoom(l, v, e);
      forall i | 0 <= i < |e| ensures InstallTrans(l, v, e, k).disk[l.start + 1 + i] == v.seen[e[i]] {
        LogSeen(l, v, e, i + 1);
        InstalledNow(l, v, e, k);
      }
    }
  }

  lemma LogRoom(l: Layout, v: View, e: seq<int>)
    requires LogOk(l, v, e)
    ensures l.start + |e| < |v.disk| == |v.seen| && forall i :: 0 <= i < |e| ==> 0 <= e[i] < |v.seen|
  {
  }

  /** The k-th installation writes one block, outside the log. */
  lemma InstalledNow(l: Layout, v: View, e: seq<int>, k: nat)
    requires LogOk(l, v, e) && 1 <= k <= |e|
    ensures var p, r := InstallTrans(l, v, e, k - 1), InstallTrans(l, v, e, k);
            && 0 <= e[k - 1] < |p.disk| && !InLog(l, e[k - 1]) && l.start + k < |p.disk| == |p.seen|
            && r.disk == p.disk[e[k - 1] := p.seen[l.start + k]] && r.history == p.history + [r.disk]
  {
    LogSeen(l, InstallTrans(l, v, e, k - 1), e, k);
  }

  lemma WriteHeadOk(l: Layout, v: View, e: seq<int>, entries: seq<int>)
    requires LogOk(l, v, entries) && |e| <= LOGSIZE
    ensures var r := WriteHead(l, v, e);
            && LogOk(l, r, entries) && LogOk(l, r, []) && r.dirties == v.dirties && r.held == v.held
                 && |r.disk| == |v.disk|
            && SameHome(l, v.seen, r.seen) && HeadCount(r.disk[l.start]) == |e| && HeadBlocks(r.disk[l.start]) == e
            && (forall i :: 0 <= i < |v.disk| && i != l.start ==> r.disk[i] == v.disk[i])
  {
    assert InLog(l, l.start);
  }

  /** The cache and disk at the commit point. */
  ghost function Publish(l: Layout, v: View, e: seq<int>): (r: View)
    requires LogOk(l, v, e)
  {
    WriteHead(l, WriteLog(l, v, e, |e|), e)
  }

  lemma PublishFollows(l: Layout, v: View, e: seq<int>)
    requires LogOk(l, v, e) && HeadCount(v.disk[l.start]) == 0
    ensures Committable(l, v.disk, Txn(e, Vals(v.seen, e)))
    ensures var t := Txn(e, Vals(v.seen, e));
            var p := Publish(l, v, e);
            && LogOk(l, p, e) && p.disk == Published(l, v.disk, t)
            && p.history == v.history + (LoggedTrace(l, v.disk, t.vals, |t.vals|) + [p.disk])
            && p.dirties == v.dirties && p.held == v.held && SameHome(l, v.seen, p.seen)
  {
    WriteLogDisk(l, v, e, |e|);
    WriteHeadOk(l, WriteLog(l, v, e, |e|), e, e);
  }

  lemma SameAt(l: Layout, d: Disk, e: Disk, b: nat)
    requires SameHome(l, d, e) && b < |d| && !InLog(l, b)
    ensures b < |e| && d[b] == e[b]
  {
  }

  lemma PublishedLog(l: Layout, v: View, e: seq<int>)
    requires LogOk(l, v, e) && LogOk(l, Publish(l, v, e), e)
    ensures var p := Publish(l, v, e);
            forall i :: 0 <= i < |e| ==> p.disk[l.start + 1 + i] == p.seen[e[i]]
  {
    hide Logged, WriteLog, WithHead, SameHome;
    var vals := Vals(v.seen, e);
    WriteLogDisk(l, v, e, |e|);
    var w := WriteLog(l, v, e, |e|);
    WriteHeadOk(l, w, e, e);
    var p := WriteHead(l, w, e);
    forall i | 0 <= i < |e|
      ensures p.disk[l.start + 1 + i] == p.seen[e[i]]
    {
      assert vals[i] == v.seen[e[i]] && w.disk[l.start + 1 + i] == vals[i];
      assert p.seen[e[i]] == w.seen[e[i]] by { SameAt(l, w.seen, p.seen, e[i]); }
      assert w.seen[e[i]] == v.seen[e[i]] by { SameAt(l, v.seen, w.seen, e[i]); }
    }
  }

  /** commit. */
  ghost function Commit(l: Layout, v: View, e: seq<int>): (r: View)
    requires LogOk(l, v, e) && HeadCount(v.disk[l.start]) == 0
  {
    if e == [] then v
    else
      PublishFollows(l, v, e);
      WriteHead(l, InstallTrans(l, Publish(l, v, e), e, |e|), [])
  }

  /** Commit performs exactly the writes of the protocol. */
  lemma CommitFollowsProtocol(l: Layout, v: View, e: seq<int>)
    requires LogOk(l, v, e) && HeadCount(v.disk[l.start]) == 0
    ensures Committable(l, v.disk, Txn(e, Vals(v.seen, e)))
    ensures var tr := CommitTrace(l, v.disk, Txn(e, Vals(v.seen, e)));
            && Commit(l, v, e).history == v.history + tr
            && Commit(l, v, e).disk == if e == [] then v.disk else tr[|tr| - 1]
  {
    hide LogOk, Committable, Install, InstallTrans, Logged, Published, WriteLog, Publish;
    PublishFollows(l, v, e);
    if e != [] {
      InstallTransDisk(l, Publish(l, v, e), e, |e|);
    }
  }

  /** Commit unpins every buffer and changes nothing a reader can see. */
  lemma CommitCleans(l: Layout, v: View, e: seq<int>)
    requires LogOk(l, v, e) && HeadCount(v.disk[l.start]) == 0
    requires forall b: nat :: b in v.dirties <==> b in e
    ensures var r := Commit(l, v, e);
            && LogOk(l, r, []) && HeadCount(r.disk[l.start]) == 0 && r.dirties == {} && r.held == v.held
            && SameHome(l, v.seen, r.seen)
  {
    if e != [] {
      PublishFollows(l, v, e);
      var p := Publish(l, v, e);
      InstallTransDirties(l, p, e, |e|);
      PublishedLog(l, v, e);
      InstallTransSeen(l, p, e, |e|);
      WriteHeadOk(l, InstallTrans(l, p, e, |e|), [], e);
      assert e[..|e|] == e;
    }
  }

  /** recover_from_log, once read_head has the entries. */
  ghost function Recovery(l: Layout, v: View, e: seq<int>): (r: View)
    requires LogOk(l, v, e)
  {
    WriteHead(l, InstallTrans(l, v, e, |e|), [])
  }

  lemma RecoveryReady(l: Layout, v: View)
    requires Recoverable(l, v.disk) && Coherent(v) && v.dirties == {} && v.held == {}
    ensures LogOk(l, v, HeadBlocks(v.disk[l.start]))
  {
  }

  /** Recovery performs exactly the writes of the protocol. */
  lemma RecoveryFollowsProtocol(l: Layout, v: View)
    requires Recoverable(l, v.disk) && LogOk(l, v, HeadBlocks(v.disk[l.start]))
    requires v.dirties == {} && v.held == {}
    ensures var r := Recovery(l, v, HeadBlocks(v.disk[l.start]));
            && r.disk == Recover(l, v.disk) && r.history == v.history + RecoveryTrace(l, v.disk)
            && LogOk(l, r, []) && r.dirties == {} && r.held == {} && HeadCount(r.disk[l.start]) == 0
  {
    hide Loggable;
    var e := HeadBlocks(v.disk[l.start]);
    InstallTransDisk(l, v, e, |e|);
    WriteHeadOk(l, InstallTrans(l, v, e, |e|), [], e);
  }

  lemma CommitSettles(l: Layout, v: View, e: seq<int>)
    requires Settled(l, v, e) && Coherent(v) && (forall b :: b in v.held ==> b !in e)
    ensures LogOk(l, v, e)
    ensures var r := Commit(l, v, e);
            Settled(l, r, []) && r.dirties == {} && r.held == v.held && SameHome(l, v.seen, r.seen)
  {
    CommitCleans(l, v, e);
  }

  lemma RecoverySettles(l: Layout, v: View)
    requires Recoverable(l, v.disk) && Coherent(v) && v.dirties == {} && v.held == {}
    ensures LogOk(l, v, HeadBlocks(v.disk[l.start]))
    ensures var r := Recovery(l, v, HeadBlocks(v.disk[l.start]));
            && Settled(l, r, []) && r.dirties == {} && r.held == {}
            && r.disk == Recover(l, v.disk) && r.history == v.history + RecoveryTrace(l, v.disk)
  {
    RecoveryReady(l, v);
    RecoveryFollowsProtocol(l, v);
  }

  /** Reading, changing and releasing blocks outside the log keeps cache and log in
      step. */
  lemma SettledHeld(l: Layout, v: View, w: View, e: seq<int>)
    requires Settled(l, v, e) && w.disk == v.disk && w.dirties == v.dirties
    requires forall b :: b in w.held ==> b in v.held || !InLog(l, b)
    ensures Settled(l, w, e)
  {
  }

  lemma HeldOutside(l: Layout, v: View, e: seq<int>, b: nat)
    requires Settled(l, v, e) && b in v.held
    ensures !InLog(l, b)
  {
  }

  /** The header block is free for write_head to use. */
  lemma HeadFree(l: Layout, v: View, e: seq<int>)
    requires LogOk(l, v, e)
    ensures IsDisk(l, v.disk) && Coherent(v) && l.start !in v.held && l.start !in v.dirties && |e| <= LOGSIZE
  {
    assert InLog(l, l.start);
  }

  lemma SettledHead(l: Layout, v: View, e: seq<int>)
    requires Settled(l, v, e)
    ensures IsDisk(l, v.disk) && HeadCount(v.disk[l.start]) == 0
  {
  }

  lemma CommitNothing(l: Layout, v: View, e: seq<int>)
    requires LogOk(l, v, e) && HeadCount(v.disk[l.start]) == 0 && e == []
    ensures Commit(l, v, e) == v
  {
  }

  lemma PublishReady(l: Layout, v: View, e: seq<int>)
    requires LogOk(l, v, e) && HeadCount(v.disk[l.start]) == 0
    ensures LogOk(l, Publish(l, v, e), e) && Publish(l, v, e).dirties == v.dirties && Publish(l, v, e).held == v.held
  {
    hide LogOk;
    PublishFollows(l, v, e);
  }

  /** Installing after publishing pins nothing new. */
  lemma InstallPins(l: Layout, v: View, e: seq<int>)
    requires LogOk(l, v, e) && LogOk(l, Publish(l, v, e), e)
    ensures var i := InstallTrans(l, Publish(l, v, e), e, |e|);
            LogOk(l, i, e) && |i.dirties + i.held| <= |v.dirties + v.held|
  {
    var w := WriteLog(l, v, e, |e|);
    WriteHeadOk(l, w, e, e);
    var i := InstallTrans(l, Publish(l, v, e), e, |e|);
    assert v.dirties + v.held == (i.dirties + i.held) + ((v.dirties + v.held) - (i.dirties + i.held));
  }
}
