/** The log of log.c, imperatively, over the buffer cache.  Each method does to
    the cache and the disk what LogSteps.dfy says, hence what RedoLog.dfy says. */
module LogManager {
  import opened Params
  import opened RedoLog
  import opened BufferCache
  import opened Sets
  import LogSteps
  import G = GroupCommit

  /** One pass of a copying loop: read two blocks, copy one buffer over the
      other, write it, release both.  The copy goes into the first block in
      write_log and into the second in install_trans. */
  method CopyBlock(cache: Bcache, first: nat, second: nat, intoFirst: bool)
    requires cache.Valid() && first != second && first < |cache.disk.blocks| && second < |cache.disk.blocks|
    requires first !in cache.held && second !in cache.held
    requires |cache.dirties + cache.held| + 2 <= cache.buf.Length
    modifies cache.Repr()
    ensures cache.Valid() && |old(cache.seen)| == |old(cache.disk.blocks)|
    ensures cache.Shown() == if intoFirst then LogSteps.Copied(old(cache.Shown()), second, first)
                             else LogSteps.Copied(old(cache.Shown()), first, second)
  {
    hide Bcache.Valid;
    ghost var busy := cache.dirties + cache.held;
    var a := BreadFree(cache, first);
    assert cache.dirties + cache.held == busy + {first};
    var b := BreadFree(cache, second);
    Transfer(cache, if intoFirst then b else a, if intoFirst then a else b);
    assert cache.held == old(cache.held);
  }

  /** bread of a block nobody holds, with a buffer to spare: it does not wait. */
  method BreadFree(cache: Bcache, b: nat) returns (i: nat)
    requires cache.Valid() && b < |cache.disk.blocks| && b !in cache.held
    requires |cache.dirties + cache.held| < cache.buf.Length
    modifies cache.buf, cache`index, cache`held, cache.disk
    ensures cache.Valid() && cache.disk.blocks == old(cache.disk.blocks)
    ensures cache.disk.history == old(cache.disk.history)
    ensures i < cache.buf.Length && cache.held == old(cache.held) + {b} && |cache.seen| == |cache.disk.blocks|
    ensures var x := cache.buf[i]; x.locked && x.valid && x.refcnt == 1 && x.blockno == b && x.data == cache.seen[b]
    ensures |cache.seen[b]| == BLOCK_WORDS && (b !in cache.dirties ==> cache.seen[b] == cache.disk.blocks[b])
    ensures old(cache.buf[i]).refcnt > 0 ==> old(cache.buf[i]).blockno == b
    ensures forall j :: 0 <= j < cache.buf.Length && j != i ==> cache.buf[j] == old(cache.buf[j])
  {
    hide Bcache.Valid;
    cache.Readable(b);
    var r := cache.Bread(ROOTDEV, b);
    i := r.i;
  }

  /** memmove(dst->data, src->data); bwrite(dst); and both buffers are released. */
  method Transfer(cache: Bcache, src: nat, dst: nat)
    requires cache.Valid() && src < cache.buf.Length && dst < cache.buf.Length
    requires var (s, d) := (cache.buf[src], cache.buf[dst]);
             && s.locked && s.valid && s.refcnt == 1 && d.locked && d.valid && d.refcnt == 1
             && s.blockno != d.blockno && s.blockno < |cache.disk.blocks|
             && (s.blockno !in cache.dirties ==> s.data == cache.disk.blocks[s.blockno])
    modifies cache.Repr()
    ensures var (s, d) := (old(cache.buf[src]), old(cache.buf[dst]).blockno);
            && d < |old(cache.seen)| == |old(cache.disk.blocks)|
            && cache.Valid() && cache.held == old(cache.held) - {s.blockno, d}
            && cache.disk.blocks == old(cache.disk.blocks)[d := s.data]
            && cache.disk.history == old(cache.disk.history) + [cache.disk.blocks]
            && cache.seen == old(cache.seen)[d := s.data] && cache.dirties == old(cache.dirties) - {d}
  {
    hide Bcache.Valid;
    cache.Holding(src);
    cache.Holding(dst);
    cache.Fill(dst, cache.buf[src].data);
    cache.Bwrite(dst);
    cache.Brelse(src);
    cache.Brelse(dst);
  }

  /** The loop of write_head: the count and the block numbers go into a copy of
      the header block. */
  method Header(h: Block, block: array<int>, n: nat) returns (words: Block)
    requires |h| == BLOCK_WORDS && n <= LOGSIZE == block.Length
    ensures words == WithHead(h, block[..n])
  {
    hide WithHead;
    words := h[0 := n];
    for i := 0 to n
      invariant |words| == |h| && words[0] == n
      invariant forall j :: 0 <= j < i ==> words[1 + j] == block[j]
      invariant forall j :: 1 + i <= j < |h| ==> words[j] == h[j]
    {
      words := words[1 + i := block[i]];
    }
    HeadWords(h, block[..n], words);
  }

  lemma HeadWords(h: Block, e: seq<int>, words: seq<int>)
    requires |h| == BLOCK_WORDS && |e| <= LOGSIZE && |words| == |h| && words[0] == |e|
    requires forall j :: 0 <= j < |e| ==> words[1 + j] == e[j]
    requires forall j :: 1 + |e| <= j < |h| ==> words[j] == h[j]
    ensures words == WithHead(h, e)
  {
  }

  /** The counters and the sleepers are those of a state of the step machine. */
  ghost predicate Agrees(s: G.State, c: G.Counters, asleep: set<nat>) {
    s.c == c && forall p :: 0 <= p < |s.procs| ==> (s.procs[p] == G.Asleep <==> p in asleep)
  }

  class Log {
    const l: Layout
    const cache: Bcache
    var outstanding: int
    var committing: bool
    /** The processes asleep on the log. */
    var asleep: set<nat>
    var n: nat
    const block: array<int>

    ghost function Repr(): set<object> {
      {this, block} + cache.Repr()
    }

    /** lh.block[0..n) */
    ghost function Entries(): (r: seq<int>)
      reads this`n, block
    {
      if n <= block.Length then block[..n] else []
    }

    ghost predicate Ready()
      reads Repr()
    {
      && this !in cache.Repr() && block !in cache.Repr()
      && block.Length == LOGSIZE && n <= LOGSIZE && cache.Valid()
    }

    ghost predicate Valid()
      reads Repr()
    {
      Ready() && LogSteps.Settled(l, cache.Shown(), Entries())
    }

    /** The part of the state group commit turns on. */
    ghost function Counters(): G.Counters
      reads this`n, this`outstanding, this`committing
    {
      G.Counters(n, outstanding, committing)
    }

    /** Room in the cache for the two buffers a copying loop holds. */
    ghost predicate Spare()
      reads cache
    {
      |cache.dirties + cache.held| + 2 <= cache.buf.Length
    }

    /** Between calls a block is in the header exactly if a buffer holds it dirty;
        the buffer is valid and is what readers see. */
    lemma PinnedWhileLogged(x: nat)
      requires Valid()
      ensures x as int in Entries() <==>
                x in cache.index && cache.index[x] < cache.buf.Length && cache.buf[cache.index[x]].dirty
      ensures x as int in Entries() ==>
                && cache.buf[cache.index[x]].valid && cache.buf[cache.index[x]].blockno == x
                && x < |cache.seen| && cache.seen[x] == cache.buf[cache.index[x]].data
    {
      hide RingOk, Chain;
      assert x in cache.dirties <==> x as int in Entries();
      if x in cache.index {
        IndexAt(cache.buf[..], cache.disk.blocks, cache.index, cache.seen, cache.dirties, cache.held, x);
        assert BufOk(cache.buf[..][cache.index[x]], cache.index[x], cache.disk.blocks, cache.index);
      }
    }

    lemma ClearHead()
      requires Valid()
      ensures IsDisk(l, cache.disk.blocks) && HeadCount(cache.disk.blocks[l.start]) == 0
    {
    }

    /** initlog: recover whatever the last crash left. */
    constructor Initlog(layout: Layout, c: Bcache)
      requires c.Valid() && Recoverable(layout, c.disk.blocks)
      requires c.dirties == {} && c.held == {} && 2 <= c.buf.Length
      modifies c.Repr()
      ensures Valid() && cache == c && l == layout && c.dirties == {} && c.held == {}
      ensures Counters() == G.Counters(0, 0, false) && asleep == {}
      ensures c.disk.blocks == Recover(layout, old(c.disk.blocks))
      ensures c.disk.history == old(c.disk.history) + RecoveryTrace(layout, old(c.disk.blocks))
    {
      hide Bcache.Valid;
      l, cache, n, outstanding, committing, asleep := layout, c, 0, 0, false, {};
      block := new int[LOGSIZE];
      new;
      RecoverFromLog();
    }

    /** log_write: absorb the block if it is already in the header, else append
        it; either way pin the buffer. */
    method LogWrite(i: nat)
      requires Valid() && i < cache.buf.Length && cache.buf[i].locked && cache.buf[i].valid
      requires !InLog(l, cache.buf[i].blockno)
      requires !G.TooBig(Counters(), l.size) && outstanding >= 1
      modifies this`n, block, cache.buf, cache`dirties
      ensures Valid()
      ensures Entries() == if cache.buf[i].blockno in old(Entries()) then old(Entries())
                           else old(Entries()) + [cache.buf[i].blockno as int]
      ensures cache.buf[..] == old(cache.buf[..])[i := old(cache.buf[i]).(dirty := true)]
    {
      hide Bcache.Valid;
      cache.Holding(i);
      var k := 0;
      while k < n && block[k] != cache.buf[i].blockno
        invariant 0 <= k <= n
        invariant forall j :: 0 <= j < k ==> block[j] != cache.buf[i].blockno
      {
        k := k + 1;
      }
      ghost var e := Entries();
      ghost var x := cache.buf[i].blockno;
      assert x in e <==> k < n by {
        if k < n { assert e[k] == x; }
      }
      block[k] := cache.buf[i].blockno;
      if k == n { n := n + 1; }
      assert Entries() == if k < |e| then e else e + [x as int];
      cache.Pin(i);
    }

    method WriteLog()
      requires Ready() && Spare() && LogSteps.LogOk(l, cache.Shown(), Entries())
      modifies cache.Repr()
      ensures Ready() && cache.Shown() == LogSteps.WriteLog(l, old(cache.Shown()), Entries(), n)
    {
      hide Bcache.Valid, LogSteps.WriteLog, LogSteps.LogOk, SameHome;
      ghost var v, e := cache.Shown(), Entries();
      LogSteps.WriteLogStep(l, v, e, 0);
      for tail := 0 to n
        invariant cache.Valid() && cache.Shown() == LogSteps.WriteLog(l, v, e, tail)
      {
        LogSteps.WriteLogStep(l, v, e, tail);
        assert e[tail] == block[tail];
        Smaller(cache.dirties + cache.held, v.dirties + v.held);
        CopyBlock(cache, l.start + tail + 1, block[tail], true);
      }
    }

    /** install_trans. */
    method InstallTrans()
      requires Ready() && Spare() && LogSteps.LogOk(l, cache.Shown(), Entries())
      modifies cache.Repr()
      ensures Ready() && cache.Shown() == LogSteps.InstallTrans(l, old(cache.Shown()), Entries(), n)
    {
      hide Bcache.Valid, LogSteps.InstallTrans, LogSteps.LogOk;
      ghost var v, e := cache.Shown(), Entries();
      LogSteps.InstallTransStep(l, v, e, 0);
      for tail := 0 to n
        invariant cache.Valid() && cache.Shown() == LogSteps.InstallTrans(l, v, e, tail)
      {
        LogSteps.InstallTransStep(l, v, e, tail);
        assert e[tail] == block[tail];
        Smaller(cache.dirties + cache.held, v.dirties + v.held);
        CopyBlock(cache, l.start + tail + 1, block[tail], false);
      }
    }

    /** write_head. */
    method WriteHead()
      requires Ready() && Spare() && Coherent(cache.Shown()) && IsDisk(l, cache.disk.blocks)
      requires l.start !in cache.held && l.start !in cache.dirties
      modifies cache.Repr()
      ensures Ready() && cache.Shown() == LogSteps.WriteHead(l, old(cache.Shown()), Entries())
    {
      hide Bcache.Valid, WithHead;
      var b := BreadFree(cache, l.start);
      var words := Header(cache.buf[b].data, block, n);
      cache.Fill(b, words);
      cache.Bwrite(b);
      cache.Brelse(b);
      assert cache.held == old(cache.held);
    }

    /** One turn of the loop in begin_op, under log.lock: enter or go to sleep. */
    method BeginOp(p: nat) returns (entered: bool)
      modifies this`outstanding, this`asleep
      ensures entered == G.Admits(old(Counters()))
      ensures old(outstanding) >= 0 ==>
                (entered <==> !old(committing) && forall k: nat :: k < (old(outstanding) + 1) * MAXOPBLOCKS ==>
                                !G.TooBig(G.After(old(Counters()), k), LOGSIZE + 1))
      ensures Counters() == if entered then G.Begun(old(Counters())) else old(Counters())
      ensures forall s: G.State :: Agrees(s, old(Counters()), old(asleep)) && G.Enabled(s, G.Begin(p)) ==>
                Agrees(G.Next(s, G.Begin(p)), Counters(), asleep)
    {
      if outstanding >= 0 { G.AdmitsIff(Counters(), LOGSIZE + 1); }
      entered := false;
      if committing {
        asleep := asleep + {p};
      } else if n + (outstanding + 1) * MAXOPBLOCKS > LOGSIZE {
        asleep := asleep + {p};
      } else {
        outstanding := outstanding + 1;
        entered := true;
      }
    }

    /** The locked part of end_op: the last operation goes on to commit, any other
        wakes those that wait for its reservation. */
    method EndOp(p: nat) returns (doCommit: bool)
      requires !committing
      modifies this`outstanding, this`committing, this`asleep
      ensures Counters() == G.Ended(old(Counters())) && doCommit == G.Commits(old(Counters()))
      ensures asleep == if doCommit then old(asleep) else {}
      ensures forall s: G.State :: Agrees(s, old(Counters()), old(asleep)) && G.Enabled(s, G.End(p)) ==>
                Agrees(G.Next(s, G.End(p)), Counters(), asleep)
    {
      doCommit := false;
      outstanding := outstanding - 1;
      if outstanding == 0 {
        doCommit := true;
        committing := true;
      } else {
        asleep := {};
      }
    }

    /** The second locked part of end_op, after commit. */
    method Finish(p: nat)
      requires n == 0
      modifies this`committing, this`asleep
      ensures Counters() == old(Counters()).(committing := false) && asleep == {}
      ensures forall s: G.State ::
                Agrees(s, s.c, old(asleep)) && s.c.(n := 0) == old(Counters()) && G.Enabled(s, G.Finish(p)) ==>
                Agrees(G.Next(s, G.Finish(p)), Counters(), asleep)
    {
      committing := false;
      asleep := {};
    }

    /** commit.  Nobody holds a logged block, since no operation is running. */
    method Commit()
      requires Valid() && Spare() && forall b :: b in cache.held ==> b !in Entries()
      modifies this`n, cache.Repr()
      ensures Valid() && Entries() == [] && cache.dirties == {} && cache.held == old(cache.held)
      ensures SameHome(l, old(cache.seen), cache.seen)
      ensures LogSteps.LogOk(l, old(cache.Shown()), old(Entries()))
      ensures var t := Txn(old(Entries()), LogSteps.Vals(old(cache.seen), old(Entries())));
              && Committable(l, old(cache.disk.blocks), t)
              && cache.disk.history == old(cache.disk.history) + CommitTrace(l, old(cache.disk.blocks), t)
              && cache.disk.blocks == CommitEnd(l, old(cache.disk.blocks), t)
    {
      hide Bcache.Valid, LogSteps.Settled, LogSteps.LogOk, LogSteps.Commit, CommitTrace, Committable, Coherent,
           SameHome;
      cache.ShowsCoherent();
      ghost var v, e := cache.Shown(), Entries();
      LogSteps.CommitSettles(l, v, e);
      LogSteps.SettledHead(l, v, e);
      LogSteps.CommitFollowsProtocol(l, v, e);
      if n > 0 {
        CommitEntries();
      } else {
        LogSteps.CommitNothing(l, v, e);
      }
      assert cache.Shown() == LogSteps.Commit(l, v, e);
    }

    method CommitEntries()
      requires Ready() && Spare() && LogSteps.LogOk(l, cache.Shown(), Entries()) && n > 0
      requires HeadCount(cache.disk.blocks[l.start]) == 0
      modifies this`n, cache.Repr()
      ensures Ready() && n == 0 && cache.Shown() == LogSteps.Commit(l, old(cache.Shown()), old(Entries()))
    {
      hide Bcache.Valid, LogSteps.LogOk, LogSteps.WriteLog, LogSteps.WriteHead, LogSteps.InstallTrans, Coherent,
           IsDisk, InLog;
      ghost var v, e := cache.Shown(), Entries();
      LogSteps.PublishReady(l, v, e);
      WriteLog();
      LogSteps.HeadFree(l, cache.Shown(), e);
      WriteHead();
      InstallTrans();
      LogSteps.InstallPins(l, v, e);
      LogSteps.HeadFree(l, cache.Shown(), e);
      n := 0;
      WriteHead();
    }

    /** read_head. */
    method ReadHead()
      requires Ready() && Spare() && Recoverable(l, cache.disk.blocks)
      requires l.start !in cache.held && l.start !in cache.dirties
      modifies this`n, block, cache.Repr()
      ensures Ready() && cache.Shown() == old(cache.Shown())
      ensures Entries() == HeadBlocks(cache.disk.blocks[l.start])
    {
      hide Bcache.Valid, WithHead;
      var b := BreadFree(cache, l.start);
      ghost var h := cache.buf[b].data;
      n := cache.buf[b].data[0];
      for i := 0 to n
        modifies block
        invariant forall j :: 0 <= j < i ==> block[j] == h[1 + j]
      {
        block[i] := cache.buf[b].data[1 + i];
      }
      cache.Brelse(b);
      assert cache.held == old(cache.held);
    }

    /** recover_from_log. */
    method RecoverFromLog()
      requires Ready() && Recoverable(l, cache.disk.blocks)
      requires cache.dirties == {} && cache.held == {} && 2 <= cache.buf.Length
      modifies this`n, block, cache.Repr()
      ensures Valid() && n == 0 && cache.dirties == {} && cache.held == {}
      ensures cache.disk.blocks == Recover(l, old(cache.disk.blocks))
      ensures cache.disk.history == old(cache.disk.history) + RecoveryTrace(l, old(cache.disk.blocks))
    {
      hide Bcache.Valid, LogSteps.Settled, LogSteps.LogOk, LogSteps.WriteHead, LogSteps.InstallTrans, Coherent, IsDisk;
      cache.ShowsCoherent();
      ghost var v := cache.Shown();
      LogSteps.RecoverySettles(l, v);
      ReadHead();
      ghost var e := Entries();
      InstallTrans();
      LogSteps.HeadFree(l, cache.Shown(), e);
      n := 0;
      WriteHead();
    }

    // ---- what the clients do between log calls

    /** A client's bread. */
    method Read(b: nat) returns (r: Fetch)
      requires Valid() && b < |cache.disk.blocks| && !InLog(l, b)
      modifies cache.Repr()
      ensures Valid() && Entries() == old(Entries()) && OnlyCache(old(cache.Shown()), cache.Shown())
      ensures r.Taken? ==> r.i < cache.buf.Length && cache.buf[r.i].locked && cache.buf[r.i].valid
                           && cache.buf[r.i].blockno == b < |cache.seen| && cache.buf[r.i].data == cache.seen[b]
    {
      hide Bcache.Valid, LogSteps.Settled;
      ghost var v := cache.Shown();
      cache.SeenAll();
      r := cache.Bread(ROOTDEV, b);
      LogSteps.SettledHeld(l, v, cache.Shown(), Entries());
    }

    /** A client that waited for a buffer gets it. */
    method Woken(i: nat)
      requires Valid() && i < cache.buf.Length && cache.buf[i].refcnt > 0 && !cache.buf[i].locked
      modifies cache.Repr()
      ensures Valid() && Entries() == old(Entries()) && OnlyCache(old(cache.Shown()), cache.Shown())
      ensures cache.buf[i].locked && cache.buf[i].valid
    {
      hide Bcache.Valid, LogSteps.Settled;
      ghost var v := cache.Shown();
      cache.BreadWoken(i);
      LogSteps.SettledHeld(l, v, cache.Shown(), Entries());
    }

    /** A client writes to a buffer it holds. */
    method Change(i: nat, data: Block)
      requires Valid() && i < cache.buf.Length && cache.buf[i].locked && cache.buf[i].valid && |data| == BLOCK_WORDS
      modifies cache.Repr()
      ensures Valid() && Entries() == old(Entries()) && OnlyCache(old(cache.Shown()), cache.Shown())
      ensures cache.seen == old(cache.seen)[cache.buf[i].blockno := data]
    {
      hide Bcache.Valid, LogSteps.Settled;
      ghost var v := cache.Shown();
      cache.Holding(i);
      cache.Fill(i, data);
      LogSteps.SettledHeld(l, v, cache.Shown(), Entries());
    }

    /** A client's brelse. */
    method Release(i: nat)
      requires Valid() && i < cache.buf.Length && cache.buf[i].locked && cache.buf[i].valid
      requires cache.buf[i].blockno < |cache.disk.blocks|
      requires cache.buf[i].dirty || cache.buf[i].data == cache.disk.blocks[cache.buf[i].blockno]
      modifies cache.Repr()
      ensures Valid() && Entries() == old(Entries()) && OnlyCache(old(cache.Shown()), cache.Shown())
      ensures cache.seen == old(cache.seen)
    {
      hide Bcache.Valid, LogSteps.Settled;
      ghost var v := cache.Shown();
      cache.Brelse(i);
      LogSteps.SettledHeld(l, v, cache.Shown(), Entries());
    }

    /** Could commit read every block it needs, without waiting and without running
        out of buffers? */
    method CanCommit() returns (ok: bool)
      requires Valid()
      ensures ok <==> Spare() && forall b :: b in cache.held ==> b !in Entries()
    {
      hide Bcache.Valid;
      var busy, clash := cache.Busy();
      ok := |busy| + 2 <= cache.buf.Length && !clash;
    }
  }

  /** Not a write to the disk, and nothing pinned or unpinned. */
  ghost predicate OnlyCache(v: View, w: View) {
    w.disk == v.disk && w.history == v.history && w.dirties == v.dirties
  }

  // ---- runs

  datatype Call =
    | CallBegin(p: nat)
    | CallRead(b: nat)
    | CallWoken(i: nat)
    | CallChange(i: nat, data: Block)
    | CallWrite(i: nat)
    | CallRelease(i: nat)
    | CallEnd(p: nat)
    | CallCommit(p: nat)

  /** Any run of calls by any number of clients; those that cannot be made are
      skipped. After each of them a block is in the header exactly while a buffer
      holds it dirty (PinnedWhileLogged), and what has been written to the disk is
      what a run of commits writes, nothing else: the crash theorem for runs covers
      it (RedoLog.CrashInCommits). */
  method Run(g: Log, calls: seq<Call>) returns (ghost ts: seq<Txn>)
    requires g.Valid() && g.outstanding >= 0 && (g.committing ==> g.outstanding == 0)
    modifies g, g.block, g.cache.Repr()
    ensures g.Valid() && g.outstanding >= 0 && (g.committing ==> g.outstanding == 0)
    ensures IsDisk(g.l, old(g.cache.disk.blocks)) && HeadCount(old(g.cache.disk.blocks)[g.l.start]) == 0
    ensures AllCommittable(g.l, old(g.cache.disk.blocks), ts)
    ensures g.cache.disk.history == old(g.cache.disk.history) + Commits(g.l, old(g.cache.disk.blocks), ts)
    ensures g.cache.disk.blocks == AfterAll(g.l, old(g.cache.disk.blocks), ts)
  {
    hide Log.Valid, Bcache.Valid, CommitTrace, Committable, CommitEnd, AllCommittable, Commits, AfterAll;
    ts := [];
    g.ClearHead();
    NoCommits(g.l, g.cache.disk.blocks);
    for k := 0 to |calls|
      invariant g.Valid() && g.outstanding >= 0 && (g.committing ==> g.outstanding == 0)
      invariant AllCommittable(g.l, old(g.cache.disk.blocks), ts)
      invariant g.cache.disk.history == old(g.cache.disk.history) + Commits(g.l, old(g.cache.disk.blocks), ts)
      invariant g.cache.disk.blocks == AfterAll(g.l, old(g.cache.disk.blocks), ts)
    {
      ghost var t := Step(g, calls[k]);
      if t.Some? {
        CommitsMore(g.l, old(g.cache.disk.blocks), ts, t.value);
        ts := ts + [t.value];
      }
    }
  }

  /** One call. Only a commit writes to the disk, and it commits what readers saw
      of the blocks in the header. */
  method Step(g: Log, e: Call) returns (ghost t: Option<Txn>)
    requires g.Valid() && g.outstanding >= 0 && (g.committing ==> g.outstanding == 0)
    modifies g, g.block, g.cache.Repr()
    ensures g.Valid() && g.outstanding >= 0 && (g.committing ==> g.outstanding == 0)
    ensures !e.CallCommit? ==> t == None
    ensures t == None ==>
              g.cache.disk.blocks == old(g.cache.disk.blocks) && g.cache.disk.history == old(g.cache.disk.history)
    ensures t.Some? ==>
              && Blocks(old(g.cache.seen))
              && (forall i :: 0 <= i < |old(g.Entries())| ==> 0 <= old(g.Entries())[i] < |old(g.cache.seen)|)
              && t.value == Txn(old(g.Entries()), LogSteps.Vals(old(g.cache.seen), old(g.Entries())))
              && Committable(g.l, old(g.cache.disk.blocks), t.value)
              && g.cache.disk.history == old(g.cache.disk.history) + CommitTrace(g.l, old(g.cache.disk.blocks), t.value)
              && g.cache.disk.blocks == CommitEnd(g.l, old(g.cache.disk.blocks), t.value)
              && g.Entries() == [] && SameHome(g.l, old(g.cache.seen), g.cache.seen)
  {
    hide Bcache.Valid, LogSteps.Settled, LogSteps.LogOk, CommitTrace, Committable, CommitEnd, SameHome, Blocks;
    t := None;
    var cache := g.cache;
    match e {
      case CallBegin(p) => var _ := g.BeginOp(p);
      case CallRead(b) =>
        if b < |cache.disk.blocks| && !InLog(g.l, b) { var _ := g.Read(b); }
      case CallWoken(i) =>
        if i < cache.buf.Length && cache.buf[i].refcnt > 0 && !cache.buf[i].locked { g.Woken(i); }
      case CallChange(i, data) =>
        if i < cache.buf.Length && cache.buf[i].locked && cache.buf[i].valid && |data| == BLOCK_WORDS {
          g.Change(i, data);
        }
      case CallWrite(i) =>
        if i < cache.buf.Length && cache.buf[i].locked && cache.buf[i].valid && g.outstanding >= 1
           && !G.TooBig(G.Counters(g.n, g.outstanding, g.committing), g.l.size) {
          cache.Holding(i);
          LogSteps.HeldOutside(g.l, cache.Shown(), g.Entries(), cache.buf[i].blockno);
          g.LogWrite(i);
        }
      case CallRelease(i) =>
        if i < cache.buf.Length && cache.buf[i].locked && cache.buf[i].valid {
          cache.Holding(i);
          if cache.buf[i].dirty || cache.buf[i].data == cache.disk.blocks[cache.buf[i].blockno] { g.Release(i); }
        }
      case CallEnd(p) =>
        if !g.committing && g.outstanding >= 1 { var _ := g.EndOp(p); }
      case CallCommit(p) =>
        if g.committing {
          var ok := g.CanCommit();
          if ok {
            ghost var v, es := cache.Shown(), g.Entries();
            g.Commit();
            LogSteps.EntriesFit(g.l, v, es);
            t := Some(Txn(es, LogSteps.Vals(v.seen, es)));
            g.Finish(p);
          }
        }
    }
  }

  lemma NoCommits(l: Layout, d: Disk)
    ensures AllCommittable(l, d, []) && Commits(l, d, []) == [] && AfterAll(l, d, []) == d
  {
  }
}
