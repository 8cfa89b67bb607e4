/** Files as byte arrays, on values. */
module FsFiles {
  import opened FsBytes
  import opened Params
  import opened FsState

  /** The bits of the first n blocks are all set. */
  predicate AllUsed(sb: Super, disk: seq<Block>, n: nat) {
    forall c :: 0 <= c < n && c < sb.size ==> MapBlock(sb, c) < |disk| && Used(sb, disk, c)
  }

  lemma NoneUsed(sb: Super, disk: seq<Block>)
    ensures AllUsed(sb, disk, 0)
  {
  }

  lemma UsedPast(sb: Super, disk: seq<Block>, n: nat, m: nat)
    requires AllUsed(sb, disk, n) && (n >= sb.size || n == m)
    ensures AllUsed(sb, disk, m)
  {
  }

  lemma UsedAt(sb: Super, disk: seq<Block>, b: nat, bi: nat)
    requires b % BPB == 0 && bi < BPB && MapBlock(sb, b) < |disk| && AllUsed(sb, disk, b + bi)
    ensures MapBlock(sb, b + bi) == MapBlock(sb, b) && (b + bi) % BPB == bi
    ensures Used(sb, disk, b + bi) <==> MapBit(disk[MapBlock(sb, b)], bi)
    ensures MapBit(disk[MapBlock(sb, b)], bi) ==> AllUsed(sb, disk, b + bi + 1)
  {
    assert (b + bi) / BPB == b / BPB && (b + bi) % BPB == bi;
  }

  /** Where every bit is set, every data block has an owner. */
  lemma UsedAll(sb: Super, s: Fs, n: nat)
    requires Sound(sb, s) && AllUsed(sb, s.disk, n)
    ensures forall c :: sb.datastart <= c < n && c < sb.size ==> c in s.owner
    ensures n >= sb.size ==> Free(sb, s) == {}
  {
    hide Used, SlotAt, SlotOk, OwnerOk;
    forall c | sb.datastart <= c < n && c < sb.size ensures c in s.owner { assert BitOk(sb, s, c); }
  }

  lemma EmptyFree(s: Fs, i: nat, k: nat, w: set<nat>, free: set<nat>)
    requires i < |s.inode| && |s.inode[i].addrs| == NDIRECT + 1 && k in Empty(s, i, w) && |Empty(s, i, w)| <= |free|
    ensures free != {}
  {
  }

  /** Enough blocks are left for the second block of a path. */
  lemma SecondFree(sb: Super, s: Fs, t: Fs, i: nat, bn: nat)
    requires Extended(sb, s, t, i, {INDIRECT}) && NDIRECT <= bn < MAXFILE && SlotAt(t, i, bn + 1) == 0
    requires |Empty(s, i, Path(bn))| <= |Free(sb, s)|
    ensures Free(sb, t) != {}
  {
    hide Used, SlotAt, SlotOk, OwnerOk, BitOk, Raw;
    EmptyLeft(sb, s, t, i, {INDIRECT}, Path(bn));
    assert bn + 1 in Empty(t, i, Path(bn));
  }

  lemma EntryAt(s: Fs, i: nat, e: nat)
    requires i < |s.inode| && |s.inode[i].addrs| == NDIRECT + 1 && e < NINDIRECT
    requires 0 < s.inode[i].addrs[INDIRECT] < |s.disk|
    ensures SlotAt(s, i, INDIRECT + 1 + e) == Word(s.disk[s.inode[i].addrs[INDIRECT]], e)
  {
  }

  lemma AddrIn(sb: Super, s: Fs, r: Fs, i: nat, k: nat)
    requires Extended(sb, s, r, i, {k}) && k < NSLOT
    ensures 0 < SlotAt(r, i, k) < |r.disk|
  {
    BelowDisk(sb, r, i, k);
  }

  // ---- truncation

  /** `now` is `was` with the first n block numbers of inode i zeroed. */
  ghost predicate AddrsCut(was: seq<Inode>, now: seq<Inode>, i: nat, n: nat) {
    && i < |was| == |now| && |was[i].addrs| == |now[i].addrs| == NDIRECT + 1
    && now == was[i := was[i].(addrs := now[i].addrs)]
    && forall k :: 0 <= k <= NDIRECT ==> now[i].addrs[k] == if k < n then 0 else was[i].addrs[k]
  }

  lemma AddrsGone(was: seq<Inode>, now: seq<Inode>, i: nat)
    requires AddrsCut(was, now, i, NDIRECT + 1)
    ensures now == was[i := was[i].(addrs := NoAddrs())]
  {
    assert now[i].addrs == NoAddrs();
  }

  lemma ClearedNone(sb: Super, disk: seq<Block>)
    requires 0 < sb.size && MapBlock(sb, sb.size - 1) < |disk|
    ensures Cleared(sb, disk, disk, {})
  {
  }

  lemma DirectAt(s: Fs, i: nat, k: nat)
    requires i < |s.inode| && |s.inode[i].addrs| == NDIRECT + 1 && k < NDIRECT
    ensures SlotAt(s, i, Nth(k)) == s.inode[i].addrs[k]
  {
  }

  /** A block still marked can be freed. */
  lemma BfreeReady(sb: Super, was: seq<Block>, disk: seq<Block>, freed: set<nat>, b: nat)
    requires b < sb.size && MapBlock(sb, sb.size - 1) < |was| && Cleared(sb, was, disk, freed)
    requires MapBlock(sb, b) < |was| ==> Used(sb, was, b) && b !in freed
    ensures MapBlock(sb, b) < |disk| && Used(sb, disk, b)
  {
    hide Used;
    MapBlockIn(sb, b, sb.size - 1);
  }

  lemma {:induction false} NoEntries(s: Fs, i: nat, n: nat)
    requires i < |s.inode| && |s.inode[i].addrs| == NDIRECT + 1 && s.inode[i].addrs[INDIRECT] == 0
    requires NDIRECT <= n <= NSLOT
    ensures FirstBlocks(s, i, n) == FirstBlocks(s, i, NDIRECT)
  {
    if n > NDIRECT { NoEntries(s, i, n - 1); }
  }

  lemma IndirectIn(sb: Super, s: Fs, disk: seq<Block>, i: nat)
    requires Sound(sb, s) && i < |s.inode| && s.inode[i].addrs[INDIRECT] != 0
    requires Cleared(sb, s.disk, disk, FirstBlocks(s, i, NDIRECT))
    ensures s.inode[i].addrs[INDIRECT] < |disk| == |s.disk|
    ensures disk[s.inode[i].addrs[INDIRECT]] == s.disk[s.inode[i].addrs[INDIRECT]]
  {
    hide Used;
    BelowDisk(sb, s, i, INDIRECT);
  }

  /** File j is the same file, in the same blocks. */
  ghost predicate SameFile(s: Fs, r: Fs, j: nat)
    requires j < |s.inode| && |s.inode[j].addrs| == NDIRECT + 1
  {
    && j < |r.inode| && r.inode[j] == s.inode[j]
    && (forall k :: 0 <= k < NSLOT ==> SlotAt(r, j, k) == SlotAt(s, j, k))
    && (forall p :: 0 <= p < MAXFILE * BSIZE ==> Raw(r, j, p) == Raw(s, j, p))
  }

  ghost predicate AllNoHoles(s: Fs) {
    forall j :: 0 <= j < |s.inode| ==> |s.inode[j].addrs| == NDIRECT + 1 && NoHoles(s, j)
  }

  lemma SameNoHoles(s: Fs, r: Fs, i: nat)
    requires AllNoHoles(s) && i < |s.inode| == |r.inode| && |r.inode[i].addrs| == NDIRECT + 1 && NoHoles(r, i)
    requires forall j :: 0 <= j < |s.inode| && j != i ==> |s.inode[j].addrs| == NDIRECT + 1 && SameFile(s, r, j)
    ensures AllNoHoles(r)
  {
    hide SlotAt, Raw;
    forall j | 0 <= j < |r.inode| && j != i ensures |r.inode[j].addrs| == NDIRECT + 1 && NoHoles(r, j) {
      assert SameFile(s, r, j);
    }
  }

  lemma TruncatedFiles(sb: Super, s: Fs, i: nat, disk: seq<Block>, r: Fs)
    requires Sound(sb, s) && AllNoHoles(s) && i < |s.inode|
    requires Cleared(sb, s.disk, disk, BlocksOf(s, i)) && r == Truncated(s, i, disk)
    ensures Sound(sb, r) && AllNoHoles(r) && (Settled(s) ==> Settled(r)) && Free(sb, r) == Free(sb, s) + BlocksOf(s, i)
    ensures forall j :: 0 <= j < |s.inode| && j != i ==> SameFile(s, r, j)
    ensures forall k :: 0 <= k < NSLOT ==> SlotAt(r, i, k) == 0
  {
    hide SlotAt, SlotOk, BitOk, Used, MapBlock;
    TruncatedOk(sb, s, i, disk);
    forall j | 0 <= j < |s.inode| && j != i ensures SameFile(s, r, j) {
      forall p | 0 <= p < MAXFILE * BSIZE ensures Raw(r, j, p) == Raw(s, j, p) {
        var k := FileSlot(p / BSIZE);
        if SlotAt(s, j, k) != 0 { BelowDisk(sb, s, j, k); }
      }
    }
    SameNoHoles(s, r, i);
    forall b | b in BlocksOf(s, i) ensures sb.datastart <= b < sb.size { assert OwnerOk(sb, s, b); }
  }

  /** What mkfs leaves in the free map: the metadata in use, the rest free. */
  ghost predicate FreshImage(sb: Super, disk: seq<Block>) {
    && 0 < sb.bmapstart && 0 < sb.size < UINT && MapBlock(sb, sb.size - 1) < sb.datastart < sb.size <= |disk|
    && forall b :: 0 <= b < sb.size ==> MapBlock(sb, b) < |disk| && (Used(sb, disk, b) <==> b < sb.datastart)
  }

  // ---- reading and writing

  /** The content of a file. */
  ghost function Flat(s: Fs, i: nat): (f: seq<byte>)
    requires i < |s.inode| && |s.inode[i].addrs| == NDIRECT + 1 && s.inode[i].size <= MAXFILE * BSIZE
    ensures |f| == s.inode[i].size
  {
    Bytes(s, i, s.inode[i].size)
  }

  /** A byte array with the bytes from off on replaced by src, and made longer if need be. */
  function Overwritten(f: seq<byte>, off: nat, src: seq<byte>): (g: seq<byte>)
    requires off <= |f|
    ensures |g| == if off + |src| > |f| then off + |src| else |f|
    ensures g[off..off + |src|] == src
  {
    f[..off] + src + if off + |src| < |f| then f[off + |src|..] else []
  }

  /** The bytes from o on that lie in one block, of those left. */
  function Chunk(o: nat, left: nat): (m: nat)
    requires left > 0
    ensures 0 < m <= left && o % BSIZE + m <= BSIZE
    ensures m == left || (o + m) % BSIZE == 0
  {
    if left < BSIZE - o % BSIZE then left else BSIZE - o % BSIZE
  }

  /** The unsigned test `off + n < off`. */
  lemma Wraps(off: nat, n: nat)
    requires off < UINT && n < UINT
    ensures (off + n) % UINT < off <==> off + n >= UINT
    ensures off + n < UINT ==> (off + n) % UINT == off + n
  {
  }

  function Patched(b: Block, at: nat, d: seq<byte>): (r: Block)
    requires at + |d| <= BSIZE
  {
    b[..at] + d + b[at + |d|..]
  }

  /** Below its size a file has its blocks, and the way to them. */
  lemma HasPath(sb: Super, s: Fs, i: nat, bn: nat)
    requires Sound(sb, s) && i < |s.inode| && NoHoles(s, i) && bn * BSIZE < s.inode[i].size
    ensures bn < MAXFILE && Empty(s, i, Path(bn)) == {} && SlotAt(s, i, FileSlot(bn)) != 0
  {
    assert bn < MAXFILE;
    assert SlotAt(s, i, FileSlot(bn)) != 0;
  }

  lemma ReadStep(sb: Super, s: Fs, i: nat, o: nat, m: nat)
    requires Sound(sb, s) && i < |s.inode| && NoHoles(s, i) && o + m <= s.inode[i].size && o % BSIZE + m <= BSIZE
    requires m > 0
    ensures o / BSIZE < MAXFILE && SlotAt(s, i, FileSlot(o / BSIZE)) < |s.disk|
    ensures s.disk[SlotAt(s, i, FileSlot(o / BSIZE))][o % BSIZE..o % BSIZE + m] == Flat(s, i)[o..o + m]
  {
    hide SlotAt, SlotOk, OwnerOk, BitOk, Used, Raw, NoHolesTo;
    HasPath(sb, s, i, o / BSIZE);
    BelowDisk(sb, s, i, FileSlot(o / BSIZE));
    var block, f := s.disk[SlotAt(s, i, FileSlot(o / BSIZE))][o % BSIZE..o % BSIZE + m], Flat(s, i)[o..o + m];
    forall q | 0 <= q < m ensures block[q] == f[q] { RawAt(s, i, o, q); }
  }

  lemma RawAt(s: Fs, i: nat, o: nat, q: nat)
    requires i < |s.inode| && |s.inode[i].addrs| == NDIRECT + 1
    requires o + q < MAXFILE * BSIZE && o % BSIZE + q < BSIZE
    requires 0 < SlotAt(s, i, FileSlot(o / BSIZE)) < |s.disk|
    ensures Raw(s, i, o + q) == s.disk[SlotAt(s, i, FileSlot(o / BSIZE))][o % BSIZE + q]
  {
    hide SlotAt;
    assert (o + q) / BSIZE == o / BSIZE && (o + q) % BSIZE == o % BSIZE + q;
  }

  /** The slots a write of the bytes from lo up to hi goes through. */
  ghost function Touched(lo: nat, hi: nat): (w: set<nat>)
    ensures forall bn :: lo / BSIZE <= bn < MAXFILE && bn * BSIZE < hi ==> Path(bn) <= w
  {
    set bn, k | lo / BSIZE <= bn < MAXFILE && bn * BSIZE < hi && k in Path(bn) :: k
  }

  lemma PatchedFiles(sb: Super, s: Fs, i: nat, o: nat, d: seq<byte>)
    requires Sound(sb, s) && i < |s.inode| && o + |d| <= MAXFILE * BSIZE && o % BSIZE + |d| <= BSIZE && |d| > 0
    requires SlotAt(s, i, FileSlot(o / BSIZE)) != 0
    ensures var b := SlotAt(s, i, FileSlot(o / BSIZE));
            && b < |s.disk|
            && var r := WithData(s, b, Patched(s.disk[b], o % BSIZE, d));
               && Sound(sb, r) && SameSlotsBut(sb, s, r, |s.inode|, 0)
               && (forall j, p :: 0 <= j < |s.inode| && 0 <= p < MAXFILE * BSIZE ==>
                     Raw(r, j, p) == if j == i && o <= p < o + |d| then d[p - o] else Raw(s, j, p))
  {
    hide SlotAt, SlotOk, OwnerOk, BitOk, Used;
    var k := FileSlot(o / BSIZE);
    var b := SlotAt(s, i, k);
    BelowDisk(sb, s, i, k);
    ExactSlot(sb, s, i, k);
    var r := WithData(s, b, Patched(s.disk[b], o % BSIZE, d));
    WithDataOk(sb, s, b, Patched(s.disk[b], o % BSIZE, d));
    forall j, p | 0 <= j < |s.inode| && 0 <= p < MAXFILE * BSIZE
      ensures Raw(r, j, p) == if j == i && o <= p < o + |d| then d[p - o] else Raw(s, j, p)
    {
      var l := FileSlot(p / BSIZE);
      if j != i || l != k {
        SlotsApart(sb, s, i, k, j, l);
        if j == i { OtherBlock(o, p, |d|); }
      } else {
        SameBlock(o, p);
      }
    }
  }

  lemma OtherBlock(o: nat, p: nat, n: nat)
    requires o / BSIZE != p / BSIZE && o % BSIZE + n <= BSIZE
    ensures !(o <= p < o + n)
  {
  }

  lemma SameBlock(o: nat, p: nat)
    requires o / BSIZE == p / BSIZE
    ensures p - o == p % BSIZE - o % BSIZE
  {
  }

  /** r is s after the first `done` bytes of src have been written at off. */
  ghost predicate Writing(sb: Super, s: Fs, r: Fs, i: nat, src: seq<byte>, off: nat, done: nat) {
    && Sound(sb, s) && Sound(sb, r) && i < |s.inode| && NoHoles(s, i) && SameHeads(s, r, i) && Settled(r)
    && done <= |src| && off <= s.inode[i].size && off + |src| <= MAXFILE * BSIZE
    && (forall p :: 0 <= p < MAXFILE * BSIZE ==>
          Raw(r, i, p) == if off <= p < off + done then src[p - off] else Raw(s, i, p))
    && (forall j :: 0 <= j < |s.inode| && j != i ==> SameFile(s, r, j))
    && (forall l :: 0 <= l < NSLOT && SlotAt(s, i, l) != 0 ==> SlotAt(r, i, l) == SlotAt(s, i, l))
    && NoHolesTo(r, i, off + done)
    && |Empty(r, i, Touched(off, off + |src|))| <= |Free(sb, r)|
    && (off + |src| <= s.inode[i].size ==> r.inode == s.inode)
  }

  lemma WritingSound(sb: Super, s: Fs, r: Fs, i: nat, src: seq<byte>, off: nat, done: nat)
    requires Writing(sb, s, r, i, src, off, done)
    ensures Sound(sb, r) && i < |r.inode| == |s.inode|
  {
    hide SlotAt, SlotOk, OwnerOk, BitOk;
  }

  lemma WritingStart(sb: Super, s: Fs, i: nat, src: seq<byte>, off: nat)
    requires Sound(sb, s) && i < |s.inode| && Settled(s) && AllNoHoles(s)
    requires off <= s.inode[i].size && off + |src| <= MAXFILE * BSIZE
    requires |Empty(s, i, Touched(off, off + |src|))| <= |Free(sb, s)|
    ensures Writing(sb, s, s, i, src, off, 0)
  {
  }

  /** bmap can be called for the next block of a write, and leaves the file as it is. */
  lemma WritingPath(sb: Super, s: Fs, r: Fs, i: nat, src: seq<byte>, off: nat, done: nat, o: nat)
    requires o == off + done && Writing(sb, s, r, i, src, off, done) && done < |src|
    ensures Sound(sb, r) && i < |r.inode| && o / BSIZE < MAXFILE
    ensures |Empty(r, i, Path(o / BSIZE))| <= |Free(sb, r)|
  {
    hide SlotAt, SlotOk, OwnerOk, BitOk, Used, Raw, SameFile, NoHolesTo, Path;
    var bn := o / BSIZE;
    BlockOf(off, o, off + |src|);
    EmptyWithin(r, i, Path(bn), Touched(off, off + |src|));
  }

  lemma BlockOf(lo: nat, p: nat, hi: nat)
    requires lo <= p < hi <= MAXFILE * BSIZE
    ensures lo / BSIZE <= p / BSIZE < MAXFILE && p / BSIZE * BSIZE < hi
  {
  }

  /** A write within the file finds every block there, so bmap does nothing. */
  lemma WritingInside(sb: Super, s: Fs, r: Fs, i: nat, src: seq<byte>, off: nat, done: nat)
    requires Writing(sb, s, r, i, src, off, done) && done < |src| && off + |src| <= s.inode[i].size
    ensures (off + done) / BSIZE < MAXFILE && Empty(r, i, Path((off + done) / BSIZE)) == {}
  {
    hide SlotOk, OwnerOk, BitOk, Used, Raw, SameFile;
    BlockOf(off, off + done, off + |src|);
    HasPath(sb, s, i, (off + done) / BSIZE);
  }

  /** The state after bmap is that before it as far as a write goes, and has the block. */
  lemma WritingMapped(sb: Super, s: Fs, r: Fs, t: Fs, i: nat, src: seq<byte>, off: nat, done: nat, o: nat)
    requires o == off + done && Writing(sb, s, r, i, src, off, done) && done < |src|
    requires o / BSIZE < MAXFILE && Extended(sb, r, t, i, Path(o / BSIZE))
    requires Empty(r, i, Path(o / BSIZE)) == {} ==> t == r
    ensures Writing(sb, s, t, i, src, off, done)
    ensures SlotAt(t, i, FileSlot(o / BSIZE)) != 0
  {
    hide SlotAt, SlotOk, OwnerOk, BitOk, Used, Raw;
    var bn := o / BSIZE;
    BlockOf(off, o, off + |src|);
    EmptyLeft(sb, r, t, i, Path(bn), Touched(off, off + |src|));
    if off + |src| <= s.inode[i].size { WritingInside(sb, s, r, i, src, off, done); }
    forall j | 0 <= j < |s.inode| && j != i ensures SameFile(s, t, j) {
      assert SameFile(s, r, j);
    }
  }

  /** One round of the loop. */
  lemma WritingStep(sb: Super, s: Fs, r: Fs, t: Fs, i: nat, src: seq<byte>, off: nat, done: nat, o: nat, m: nat)
    requires o == off + done && Writing(sb, s, r, i, src, off, done) && 0 < m <= |src| - done && o % BSIZE + m <= BSIZE
    requires o / BSIZE < MAXFILE && Extended(sb, r, t, i, Path(o / BSIZE))
    requires Empty(r, i, Path(o / BSIZE)) == {} ==> t == r
    ensures i < |t.inode| && |t.inode[i].addrs| == NDIRECT + 1
    ensures var b := SlotAt(t, i, FileSlot(o / BSIZE));
            && b < |t.disk|
            && Writing(sb, s, WithData(t, b, Patched(t.disk[b], o % BSIZE, src[done..done + m])), i, src, off, done + m)
  {
    hide SlotAt, SlotOk, OwnerOk, BitOk, Used, Raw, Extended, Patched;
    WritingMapped(sb, s, r, t, i, src, off, done, o);
    var b := SlotAt(t, i, FileSlot(o / BSIZE));
    var d := src[done..done + m];
    assert |d| == m;
    PatchedFiles(sb, t, i, o, d);
    var u := WithData(t, b, Patched(t.disk[b], o % BSIZE, d));
    EmptyKept(sb, t, u, i, Touched(off, off + |src|));
    forall j | 0 <= j < |s.inode| && j != i ensures SameFile(s, u, j) {
      assert SameFile(s, t, j);
    }
    forall bn | 0 <= bn < MAXFILE && bn * BSIZE < off + done + m ensures SlotAt(u, i, FileSlot(bn)) != 0 {
      if bn * BSIZE >= off + done { NextBlock(o, m, bn); }
    }
  }

  lemma EmptyKept(sb: Super, t: Fs, u: Fs, i: nat, w: set<nat>)
    requires LayoutOk(sb, t) && LayoutOk(sb, u) && i < |t.inode| && SameSlotsBut(sb, t, u, |t.inode|, 0)
    requires u.owner == t.owner
    ensures Empty(u, i, w) == Empty(t, i, w) && Free(sb, u) == Free(sb, t)
  {
    hide SlotAt;
  }

  lemma NextBlock(o: nat, m: nat, bn: nat)
    requires o % BSIZE + m <= BSIZE && o <= bn * BSIZE < o + m
    ensures bn == o / BSIZE
  {
  }

  /** The write is complete once the size is set. */
  lemma WrittenFiles(sb: Super, s: Fs, t: Fs, r: Fs, i: nat, src: seq<byte>, off: nat)
    requires AllNoHoles(s) && Writing(sb, s, t, i, src, off, |src|)
    requires var size := t.inode[i].size;
             r == t.(inode := t.inode[i := t.inode[i].(size := if |src| > 0 && off + |src| > size then off + |src|
                 else size)])
    ensures Sound(sb, r) && Settled(r) && AllNoHoles(r)
    ensures Flat(r, i) == Overwritten(Flat(s, i), off, src)
    ensures forall j :: 0 <= j < |s.inode| && j != i ==> SameFile(s, r, j)
    ensures r.inode == s.inode[i := r.inode[i]] && (|src| == 0 || off + |src| <= t.inode[i].size ==> r.inode == s.inode)
  {
    hide SlotAt, SlotOk, OwnerOk, BitOk, Used;
    SizeOnly(sb, t, r, i);
    forall j | 0 <= j < |s.inode| && j != i ensures SameFile(s, r, j) {
      assert SameFile(s, t, j);
    }
    var f, g := Flat(r, i), Overwritten(Flat(s, i), off, src);
    forall p | 0 <= p < |f| ensures f[p] == g[p] {
      assert Raw(r, i, p) == Raw(t, i, p);
    }
    SameNoHoles(s, r, i);
  }

  /** Only the size of inode i differs. */
  lemma SizeOnly(sb: Super, t: Fs, r: Fs, i: nat)
    requires Sound(sb, t) && i < |t.inode| && r.disk == t.disk && r.owner == t.owner && |r.inode| == |t.inode|
    requires r.inode[i] == t.inode[i].(size := r.inode[i].size)
    requires forall j :: 0 <= j < |t.inode| && j != i ==> r.inode[j] == t.inode[j]
    ensures Sound(sb, r)
    ensures forall j, l :: 0 <= j < |t.inode| && 0 <= l < NSLOT ==> SlotAt(r, j, l) == SlotAt(t, j, l)
  {
    forall j, l | 0 <= j < |t.inode| && 0 <= l < NSLOT
      ensures SlotAt(r, j, l) == SlotAt(t, j, l) && SlotOk(sb, r, j, l) {
      assert SlotOk(sb, t, j, l);
    }
    forall b | b in r.owner ensures OwnerOk(sb, r, b) { assert OwnerOk(sb, t, b); }
    BitsKept(sb, t, r);
  }
}
