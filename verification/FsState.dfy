/** Who owns which block of the file system, on values: the free map, the slots
    of the inodes, and what each elementary update does to them. */
module FsState {
  import opened FsBytes
  import opened Params
  import opened Sets

  const NDIRECT: nat := 12
  /** Slots of an inode: the direct blocks, the indirect block, its entries. */
  const INDIRECT: nat := NDIRECT
  const NSLOT: nat := NDIRECT + 1 + NINDIRECT
  const MAXFILE: nat := NDIRECT + NINDIRECT

  /** The part of the superblock the block layer uses; data blocks lie from
      `datastart` up to `size`. */
  datatype Super = Super(size: nat, bmapstart: nat, datastart: nat)

  type short = x: int | -0x8000 <= x < 0x8000

  datatype Inode = Inode(typ: short, major: short, minor: short, nlink: short, size: nat, addrs: seq<nat>)

  datatype Owner = Slot(i: nat, k: nat) | Pending

  /** The blocks as readers of the cache see them, the in-memory inodes, and for
      each block in use who holds it. */
  datatype Fs = Fs(disk: seq<Block>, inode: seq<Inode>, owner: map<nat, Owner>)

  /** The block of the free map with the bit of block b. */
  function MapBlock(sb: Super, b: nat): nat {
    sb.bmapstart + b / BPB
  }

  /** The map is one run of bits, the bit of block b at place b. */
  lemma MapBits(sb: Super, b: nat)
    ensures MapBlock(sb, b) >= sb.bmapstart && (MapBlock(sb, b) - sb.bmapstart) * BPB + b % BPB == b
  {
  }

  lemma MapBlockIn(sb: Super, b: nat, c: nat)
    requires b <= c
    ensures sb.bmapstart <= MapBlock(sb, b) <= MapBlock(sb, c)
  {
  }

  ghost predicate LayoutOk(sb: Super, s: Fs) {
    && 0 < sb.bmapstart && 0 < sb.size && MapBlock(sb, sb.size - 1) < sb.datastart < sb.size <= |s.disk|
         && sb.size < UINT
    && forall i :: 0 <= i < |s.inode| ==> |s.inode[i].addrs| == NDIRECT + 1
  }

  /** The block number in slot k of inode i; 0 if none. */
  function SlotAt(s: Fs, i: nat, k: nat): nat
    requires i < |s.inode| && |s.inode[i].addrs| == NDIRECT + 1 && k < NSLOT
  {
    var a := s.inode[i].addrs;
    if k <= INDIRECT then a[k]
    else if 0 < a[INDIRECT] < |s.disk| then Word(s.disk[a[INDIRECT]], k - INDIRECT - 1) else 0
  }

  /** The free-map bit of block b. */
  predicate Used(sb: Super, disk: seq<Block>, b: nat)
    requires MapBlock(sb, b) < |disk|
  {
    MapBit(disk[MapBlock(sb, b)], b % BPB)
  }

  ghost predicate SlotOk(sb: Super, s: Fs, i: nat, k: nat)
    requires LayoutOk(sb, s) && i < |s.inode| && k < NSLOT
  {
    var b := SlotAt(s, i, k);
    b != 0 ==> sb.datastart <= b < sb.size && b in s.owner && s.owner[b] == Slot(i, k)
  }

  ghost predicate OwnerOk(sb: Super, s: Fs, b: nat)
    requires LayoutOk(sb, s) && b in s.owner
  {
    && sb.datastart <= b < sb.size
    && match s.owner[b]
       case Slot(i, k) => i < |s.inode| && k < NSLOT && SlotAt(s, i, k) == b
       case Pending => true
  }

  ghost predicate BitOk(sb: Super, s: Fs, b: nat)
    requires LayoutOk(sb, s) && b < sb.size
  {
    Used(sb, s.disk, b) <==> b < sb.datastart || b in s.owner
  }

  /** A bit is set exactly when its block is metadata or has one owner: one slot
      of one inode, or whoever has just allocated it. */
  ghost predicate Sound(sb: Super, s: Fs) {
    && LayoutOk(sb, s)
    && (forall i, k :: 0 <= i < |s.inode| && 0 <= k < NSLOT ==> SlotOk(sb, s, i, k))
    && (forall b :: b in s.owner ==> OwnerOk(sb, s, b))
    && (forall b :: 0 <= b < sb.size ==> BitOk(sb, s, b))
  }

  /** All slots hold what they held, except perhaps slot k of inode i. */
  ghost predicate SameSlotsBut(sb: Super, s: Fs, r: Fs, i: nat, k: nat)
    requires LayoutOk(sb, s) && LayoutOk(sb, r)
  {
    && |r.inode| == |s.inode|
    && forall j, l :: 0 <= j < |s.inode| && 0 <= l < NSLOT && !(j == i && l == k) ==> SlotAt(r, j, l) == SlotAt(s, j, l)
  }

  /** Every data block that had an owner has the bytes it had, except perhaps x. */
  ghost predicate SameData(s: Fs, r: Fs, x: nat) {
    |r.disk| == |s.disk|
    && forall b :: 0 <= b < |s.disk| && b in s.owner && b != x && s.owner[b].Slot? && s.owner[b].k != INDIRECT ==>
         r.disk[b] == s.disk[b]
  }

  /** No block has two owners: distinct slots hold distinct blocks. */
  lemma SlotsApart(sb: Super, s: Fs, i: nat, k: nat, j: nat, l: nat)
    requires Sound(sb, s) && i < |s.inode| && j < |s.inode| && k < NSLOT && l < NSLOT && (i != j || k != l)
    requires SlotAt(s, i, k) != 0
    ensures SlotAt(s, i, k) != SlotAt(s, j, l)
  {
    assert SlotOk(sb, s, i, k) && SlotOk(sb, s, j, l);
  }

  // ---- the elementary updates

  /** Where the map blocks and the blocks with an owner stay, so do the bits. */
  lemma BitsKept(sb: Super, s: Fs, r: Fs)
    requires Sound(sb, s) && LayoutOk(sb, r) && r.owner.Keys == s.owner.Keys
    requires forall c :: 0 <= c < sb.datastart ==> r.disk[c] == s.disk[c]
    ensures forall c :: 0 <= c < sb.size ==> BitOk(sb, r, c)
  {
    hide SlotAt, MapBit, MapBlock, Word;
    forall c | 0 <= c < sb.size ensures BitOk(sb, r, c) {
      assert BitOk(sb, s, c);
      MapBlockIn(sb, c, sb.size - 1);
      assert c in r.owner <==> c in s.owner.Keys;
    }
  }

  /** Bit b of the free map is set, for a block nobody has, or cleared. */
  ghost function Marked(sb: Super, s: Fs, b: nat, on: bool): Fs
    requires LayoutOk(sb, s) && b < sb.size
  {
    var m := MapBlock(sb, b);
    Fs(s.disk[m := WithMapBit(s.disk[m], b % BPB, on)], s.inode, if on then s.owner[b := Pending] else s.owner - {b})
  }

  lemma MarkedSlot(sb: Super, s: Fs, b: nat, on: bool, i: nat, k: nat)
    requires Sound(sb, s) && b < sb.size && i < |s.inode| && k < NSLOT
    ensures SlotAt(Marked(sb, s, b, on), i, k) == SlotAt(s, i, k)
  {
    hide WithMapBit, MapBit, Word;
    assert SlotOk(sb, s, i, INDIRECT);
  }

  lemma UsedPut(sb: Super, disk: seq<Block>, b: nat, on: bool, c: nat)
    requires MapBlock(sb, b) < |disk| && MapBlock(sb, c) < |disk|
    ensures var m := MapBlock(sb, b);
            Used(sb, disk[m := WithMapBit(disk[m], b % BPB, on)], c) <==> if c == b then on else Used(sb, disk, c)
  {
    hide WithMapBit, MapBit;
    if c / BPB == b / BPB { MapBitPut(disk[MapBlock(sb, b)], b % BPB, on, c % BPB); }
  }

  lemma MarkedOk(sb: Super, s: Fs, b: nat, on: bool)
    requires Sound(sb, s) && b < sb.size
    requires if on then !Used(sb, s.disk, b) else b in s.owner && s.owner[b] == Pending
    ensures var r := Marked(sb, s, b, on);
            LayoutOk(sb, r) && Sound(sb, r) && SameSlotsBut(sb, s, r, |s.inode|, 0) && SameData(s, r, 0)
            && sb.datastart <= b
  {
    hide Used, SlotAt, MapBlock, WithMapBit;
    var r := Marked(sb, s, b, on);
    assert BitOk(sb, s, b);
    MapBlockIn(sb, b, sb.size - 1);
    forall i, k | 0 <= i < |s.inode| && 0 <= k < NSLOT
      ensures SlotAt(r, i, k) == SlotAt(s, i, k) && SlotOk(sb, r, i, k)
    {
      MarkedSlot(sb, s, b, on, i, k);
      assert SlotOk(sb, s, i, k);
    }
    forall c | c in r.owner ensures OwnerOk(sb, r, c) {
      if c != b { assert OwnerOk(sb, s, c); }
    }
    forall c | 0 <= c < sb.size ensures BitOk(sb, r, c) {
      assert BitOk(sb, s, c);
      MapBlockIn(sb, c, sb.size - 1);
      UsedPut(sb, s.disk, b, on, c);
    }
    forall c | 0 <= c < |s.disk| && c in s.owner && s.owner[c].Slot? ensures r.disk[c] == s.disk[c] {
      assert OwnerOk(sb, s, c);
    }
  }

  /** The bytes of a block are replaced that holds no slots: a block just
      allocated, or a data block. */
  ghost function WithData(s: Fs, b: nat, data: Block): Fs
    requires b < |s.disk|
  {
    s.(disk := s.disk[b := data])
  }

  lemma WithDataSlot(sb: Super, s: Fs, b: nat, data: Block, i: nat, k: nat)
    requires Sound(sb, s) && b in s.owner && (s.owner[b].Slot? ==> s.owner[b].k != INDIRECT)
    requires i < |s.inode| && k < NSLOT
    ensures b < |s.disk| && SlotAt(WithData(s, b, data), i, k) == SlotAt(s, i, k)
  {
    hide Word, Used;
    assert OwnerOk(sb, s, b) && SlotOk(sb, s, i, INDIRECT);
  }

  lemma WithDataOk(sb: Super, s: Fs, b: nat, data: Block)
    requires Sound(sb, s) && b in s.owner && (s.owner[b].Slot? ==> s.owner[b].k != INDIRECT)
    ensures b < |s.disk|
    ensures var r := WithData(s, b, data);
            LayoutOk(sb, r) && Sound(sb, r) && SameSlotsBut(sb, s, r, |s.inode|, 0) && SameData(s, r, b)
  {
    hide SlotAt, Word, Used, MapBlock;
    assert OwnerOk(sb, s, b);
    var r := WithData(s, b, data);
    forall i, k | 0 <= i < |s.inode| && 0 <= k < NSLOT
      ensures SlotAt(r, i, k) == SlotAt(s, i, k) && SlotOk(sb, r, i, k)
    {
      assert SlotOk(sb, s, i, k);
      WithDataSlot(sb, s, b, data, i, k);
    }
    forall c | c in r.owner ensures OwnerOk(sb, r, c) { assert OwnerOk(sb, s, c); }
    BitsKept(sb, s, r);
  }

  /** Slot k of inode i is filled with a block just allocated and zeroed. */
  ghost function WithAddr(s: Fs, i: nat, k: nat, b: nat): Fs
    requires i < |s.inode| && |s.inode[i].addrs| == NDIRECT + 1 && k <= INDIRECT
  {
    Fs(s.disk, s.inode[i := s.inode[i].(addrs := s.inode[i].addrs[k := b])], s.owner[b := Slot(i, k)])
  }

  lemma WithAddrOk(sb: Super, s: Fs, i: nat, k: nat, b: nat)
    requires Sound(sb, s) && i < |s.inode| && k <= INDIRECT && SlotAt(s, i, k) == 0
    requires b in s.owner && s.owner[b] == Pending && b < |s.disk| && s.disk[b] == Zeros()
    ensures var r := WithAddr(s, i, k, b);
            && b != 0 && LayoutOk(sb, r) && Sound(sb, r) && SameSlotsBut(sb, s, r, i, k) && SlotAt(r, i, k) == b
            && SameData(s, r, 0)
  {
    hide Used, MapBlock;
    assert OwnerOk(sb, s, b);
    var r := WithAddr(s, i, k, b);
    forall j, l | 0 <= j < |s.inode| && 0 <= l < NSLOT
      ensures SlotAt(r, j, l) == if j == i && l == k then b else SlotAt(s, j, l)
    {
      if j == i && k == INDIRECT && l > INDIRECT { ZeroWords(l - INDIRECT - 1); }
    }
    forall j, l | 0 <= j < |s.inode| && 0 <= l < NSLOT ensures SlotOk(sb, r, j, l) { assert SlotOk(sb, s, j, l); }
    forall c | c in r.owner ensures OwnerOk(sb, r, c) { assert OwnerOk(sb, s, c); }
    BitsKept(sb, s, r);
  }

  /** Entry j of the indirect block of inode i is filled with a block just allocated. */
  ghost function WithEntry(s: Fs, i: nat, j: nat, b: nat): Fs
    requires i < |s.inode| && |s.inode[i].addrs| == NDIRECT + 1 && j < NINDIRECT && b < UINT
    requires s.inode[i].addrs[INDIRECT] < |s.disk|
  {
    var a := s.inode[i].addrs[INDIRECT];
    Fs(s.disk[a := WithWord(s.disk[a], j, b)], s.inode, s.owner[b := Slot(i, INDIRECT + 1 + j)])
  }

  lemma WithEntrySlot(sb: Super, s: Fs, i: nat, j: nat, b: nat, c: nat, l: nat)
    requires Sound(sb, s) && i < |s.inode| && j < NINDIRECT && SlotAt(s, i, INDIRECT) != 0 && 0 < b < UINT
    requires c < |s.inode| && l < NSLOT
    ensures s.inode[i].addrs[INDIRECT] < |s.disk|
    ensures SlotAt(WithEntry(s, i, j, b), c, l) == if c == i && l == INDIRECT + 1 + j then b else SlotAt(s, c, l)
  {
    hide Word, WithWord;
    assert SlotOk(sb, s, c, INDIRECT) && SlotOk(sb, s, i, INDIRECT);
    if c == i && l > INDIRECT { WordPut(s.disk[s.inode[i].addrs[INDIRECT]], j, b, l - INDIRECT - 1); }
  }

  lemma WithEntryOk(sb: Super, s: Fs, i: nat, j: nat, b: nat)
    requires Sound(sb, s) && i < |s.inode| && j < NINDIRECT && SlotAt(s, i, INDIRECT) != 0
    requires SlotAt(s, i, INDIRECT + 1 + j) == 0 && b in s.owner && s.owner[b] == Pending
    ensures s.inode[i].addrs[INDIRECT] < |s.disk| && 0 < b < UINT
    ensures var r := WithEntry(s, i, j, b);
            && LayoutOk(sb, r) && Sound(sb, r) && SameSlotsBut(sb, s, r, i, INDIRECT + 1 + j)
            && SlotAt(r, i, INDIRECT + 1 + j) == b && SameData(s, r, 0)
  {
    hide SlotAt, Word, WithWord, Used, MapBlock;
    assert SlotOk(sb, s, i, INDIRECT) && OwnerOk(sb, s, b);
    var a := SlotAt(s, i, INDIRECT);
    IndirectAt(s, i);
    var r := WithEntry(s, i, j, b);
    forall c, l | 0 <= c < |s.inode| && 0 <= l < NSLOT
      ensures SlotAt(r, c, l) == (if c == i && l == INDIRECT + 1 + j then b else SlotAt(s, c, l)) && SlotOk(sb, r, c, l)
    {
      assert SlotOk(sb, s, c, l);
      WithEntrySlot(sb, s, i, j, b, c, l);
    }
    forall c | c in r.owner ensures OwnerOk(sb, r, c) { assert OwnerOk(sb, s, c); }
    BitsKept(sb, s, r);
  }

  lemma IndirectAt(s: Fs, i: nat)
    requires i < |s.inode| && |s.inode[i].addrs| == NDIRECT + 1
    ensures SlotAt(s, i, INDIRECT) == s.inode[i].addrs[INDIRECT]
  {
  }

  // ---- truncation

  /** `disk` is the disk `was` with the map bits of the blocks in `freed` cleared. */
  ghost predicate Cleared(sb: Super, was: seq<Block>, disk: seq<Block>, freed: set<nat>)
    requires 0 < sb.size && MapBlock(sb, sb.size - 1) < |was|
  {
    && |disk| == |was|
    && (forall c :: sb.datastart <= c < |disk| ==> disk[c] == was[c])
    && (forall c :: 0 <= c < sb.size ==> (Used(sb, disk, c) <==> Used(sb, was, c) && c !in freed))
  }

  lemma ClearedStep(sb: Super, was: seq<Block>, disk: seq<Block>, freed: set<nat>, b: nat)
    requires b < sb.size && MapBlock(sb, sb.size - 1) < |was| && Cleared(sb, was, disk, freed)
    requires MapBlock(sb, sb.size - 1) < sb.datastart
    ensures var m := MapBlock(sb, b);
            Cleared(sb, was, disk[m := WithMapBit(disk[m], b % BPB, false)], freed + {b})
  {
    hide Used, WithMapBit;
    var m := MapBlock(sb, b);
    forall c | 0 <= c < sb.size
      ensures Used(sb, disk[m := WithMapBit(disk[m], b % BPB, false)], c) <==> Used(sb, was, c) && c !in freed + {b}
    {
      UsedPut(sb, disk, b, false, c);
    }
  }

  /** Every block of inode i is gone, from its slots and from the map. */
  ghost function Truncated(s: Fs, i: nat, disk: seq<Block>): Fs
    requires i < |s.inode|
  {
    Fs(disk, s.inode[i := s.inode[i].(addrs := NoAddrs(), size := 0)], s.owner - BlocksOf(s, i))
  }

  function NoAddrs(): (a: seq<nat>)
    ensures |a| == NDIRECT + 1 && forall k :: 0 <= k <= NDIRECT ==> a[k] == 0
  {
    seq(NDIRECT + 1, _ => 0)
  }

  ghost function BlocksOf(s: Fs, i: nat): (r: set<nat>)
    ensures forall b :: b in r <==> b in s.owner && s.owner[b].Slot? && s.owner[b].i == i
  {
    set b | b in s.owner && s.owner[b].Slot? && s.owner[b].i == i
  }

  lemma TruncatedOk(sb: Super, s: Fs, i: nat, disk: seq<Block>)
    requires Sound(sb, s) && i < |s.inode| && Cleared(sb, s.disk, disk, BlocksOf(s, i))
    ensures var r := Truncated(s, i, disk);
            && LayoutOk(sb, r) && Sound(sb, r) && |r.inode| == |s.inode|
            && (forall j, k :: 0 <= j < |s.inode| && 0 <= k < NSLOT ==>
                  SlotAt(r, j, k) == if j == i then 0 else SlotAt(s, j, k))
            && (forall b :: 0 <= b < |s.disk| && b in r.owner ==> r.disk[b] == s.disk[b])
  {
    hide Used;
    var r := Truncated(s, i, disk);
    forall j, k | 0 <= j < |s.inode| && 0 <= k < NSLOT
      ensures SlotAt(r, j, k) == (if j == i then 0 else SlotAt(s, j, k)) && SlotOk(sb, r, j, k)
    {
      assert SlotOk(sb, s, j, INDIRECT) && SlotOk(sb, s, j, k);
    }
    forall c | c in r.owner ensures OwnerOk(sb, r, c) { assert OwnerOk(sb, s, c); }
    forall c | 0 <= c < sb.size ensures BitOk(sb, r, c) {
      assert BitOk(sb, s, c);
      if c in s.owner { assert OwnerOk(sb, s, c); }
    }
  }

  /** The blocks in the first n slots of inode i, in the order itrunc frees them:
      direct blocks, entries of the indirect block, the indirect block. */
  function Nth(n: nat): (k: nat)
    requires n < NSLOT
    ensures k < NSLOT
  {
    if n < NDIRECT then n else if n < NSLOT - 1 then n + 1 else INDIRECT
  }

  ghost function FirstBlocks(s: Fs, i: nat, n: nat): set<nat>
    requires i < |s.inode| && |s.inode[i].addrs| == NDIRECT + 1 && n <= NSLOT
  {
    if n == 0 then {}
    else FirstBlocks(s, i, n - 1) + if SlotAt(s, i, Nth(n - 1)) != 0 then {SlotAt(s, i, Nth(n - 1))} else {}
  }

  lemma {:induction false} FirstBlocksAre(sb: Super, s: Fs, i: nat, n: nat)
    requires Sound(sb, s) && i < |s.inode| && n <= NSLOT
    ensures forall b :: b in FirstBlocks(s, i, n) <==> exists m :: 0 <= m < n && b != 0 && SlotAt(s, i, Nth(m)) == b
  {
    if n > 0 { FirstBlocksAre(sb, s, i, n - 1); }
  }

  /** The next block itrunc frees is in use and has not been freed yet. */
  lemma NextFreed(sb: Super, s: Fs, i: nat, n: nat)
    requires Sound(sb, s) && i < |s.inode| && n < NSLOT && SlotAt(s, i, Nth(n)) != 0
    ensures var b := SlotAt(s, i, Nth(n));
            sb.datastart <= b < sb.size && Used(sb, s.disk, b) && b !in FirstBlocks(s, i, n)
  {
    var b := SlotAt(s, i, Nth(n));
    assert SlotOk(sb, s, i, Nth(n));
    assert BitOk(sb, s, b);
    FirstBlocksAre(sb, s, i, n);
    if b in FirstBlocks(s, i, n) {
      var m :| 0 <= m < n && SlotAt(s, i, Nth(m)) == b;
      SlotsApart(sb, s, i, Nth(n), i, Nth(m));
    }
  }

  lemma AllBlocksFreed(sb: Super, s: Fs, i: nat)
    requires Sound(sb, s) && i < |s.inode|
    ensures FirstBlocks(s, i, NSLOT) == BlocksOf(s, i)
  {
    FirstBlocksAre(sb, s, i, NSLOT);
    forall b | b in BlocksOf(s, i) ensures b in FirstBlocks(s, i, NSLOT) {
      assert OwnerOk(sb, s, b);
      var k := s.owner[b].k;
      var m := if k < NDIRECT then k else if k == INDIRECT then NSLOT - 1 else k - 1;
      assert Nth(m) == k;
    }
    forall b | b in FirstBlocks(s, i, NSLOT) ensures b in BlocksOf(s, i) {
      var m :| 0 <= m < NSLOT && SlotAt(s, i, Nth(m)) == b;
      assert SlotOk(sb, s, i, Nth(m));
    }
  }

  // ---- file contents

  /** The slot of the bn-th block of a file. */
  function FileSlot(bn: nat): (k: nat)
    requires bn < MAXFILE
    ensures k < NSLOT && k != INDIRECT
  {
    if bn < NDIRECT then bn else bn + 1
  }

  ghost function Raw(s: Fs, i: nat, p: nat): byte
    requires i < |s.inode| && |s.inode[i].addrs| == NDIRECT + 1 && p < MAXFILE * BSIZE
  {
    var b := SlotAt(s, i, FileSlot(p / BSIZE));
    if 0 < b < |s.disk| then s.disk[b][p % BSIZE] else 0
  }

  /** Where a byte of a file is: block p / BSIZE of it is named by the inode itself
      for the first twelve blocks, and by an entry of the indirect block from then
      on. */
  lemma ByteAt(s: Fs, i: nat, p: nat)
    requires i < |s.inode| && |s.inode[i].addrs| == NDIRECT + 1 && p < (NDIRECT + NINDIRECT) * BSIZE
    ensures var a, bn := s.inode[i].addrs, p / BSIZE;
            && (bn < 12 && 0 < a[bn] < |s.disk| ==> Raw(s, i, p) == s.disk[a[bn]][p % BSIZE])
            && (bn >= 12 && 0 < a[12] < |s.disk| && 0 < Word(s.disk[a[12]], bn - 12) < |s.disk| ==>
                  Raw(s, i, p) == s.disk[Word(s.disk[a[12]], bn - 12)][p % BSIZE])
  {
  }

  /** The first n bytes of file i. */
  ghost function Bytes(s: Fs, i: nat, n: nat): (r: seq<byte>)
    requires i < |s.inode| && |s.inode[i].addrs| == NDIRECT + 1 && n <= MAXFILE * BSIZE
    ensures |r| == n && forall p :: 0 <= p < n ==> r[p] == Raw(s, i, p)
  {
    seq(n, p requires 0 <= p < n => Raw(s, i, p))
  }

  /** Every block below byte n is allocated. */
  ghost predicate NoHolesTo(s: Fs, i: nat, n: nat)
    requires i < |s.inode| && |s.inode[i].addrs| == NDIRECT + 1
  {
    forall bn :: 0 <= bn < MAXFILE && bn * BSIZE < n ==> SlotAt(s, i, FileSlot(bn)) != 0
  }

  ghost predicate NoHoles(s: Fs, i: nat)
    requires i < |s.inode| && |s.inode[i].addrs| == NDIRECT + 1
  {
    s.inode[i].size <= MAXFILE * BSIZE && NoHolesTo(s, i, s.inode[i].size)
  }

  /** No byte of any file differs. */
  ghost predicate SameFiles(sb: Super, s: Fs, r: Fs)
    requires LayoutOk(sb, s) && LayoutOk(sb, r)
  {
    && |r.inode| == |s.inode|
    && forall j, p :: 0 <= j < |s.inode| && 0 <= p < MAXFILE * BSIZE ==> Raw(r, j, p) == Raw(s, j, p)
  }

  // ---- allocation

  /** The blocks balloc can hand out. */
  ghost function Free(sb: Super, s: Fs): (r: set<nat>)
    ensures forall b :: b in r <==> sb.datastart <= b < sb.size && b !in s.owner
  {
    set b | sb.datastart <= b < sb.size && b !in s.owner
  }

  /** Nobody holds a block that is in no slot. */
  ghost predicate Settled(s: Fs) {
    forall b :: b in s.owner ==> s.owner[b].Slot?
  }

  /** The slots bmap goes through for block bn of a file. */
  function Path(bn: nat): set<nat>
    requires bn < MAXFILE
  {
    if bn < NDIRECT then {bn} else {INDIRECT, bn + 1}
  }

  ghost function Empty(s: Fs, i: nat, w: set<nat>): (r: set<nat>)
    requires i < |s.inode| && |s.inode[i].addrs| == NDIRECT + 1
    ensures forall k :: k in r <==> k in w && k < NSLOT && SlotAt(s, i, k) == 0
  {
    set k | k in w && k < NSLOT && SlotAt(s, i, k) == 0
  }

  /** m is s with block b taken from the free map and zeroed. */
  ghost predicate Allocated(sb: Super, s: Fs, m: Fs, b: nat) {
    && LayoutOk(sb, s) && Sound(sb, m) && b in Free(sb, s) && b < |m.disk|
    && m.inode == s.inode && m.owner == s.owner[b := Pending] && m.disk[b] == Zeros()
    && SameSlotsBut(sb, s, m, |s.inode|, 0) && SameData(s, m, 0)
  }

  lemma AllocatedOk(sb: Super, s: Fs, b: nat)
    requires Sound(sb, s) && b < sb.size && !Used(sb, s.disk, b)
    ensures LayoutOk(sb, Marked(sb, s, b, true)) && b < |s.disk|
    ensures Allocated(sb, s, WithData(Marked(sb, s, b, true), b, Zeros()), b)
  {
    hide Used, SlotAt;
    assert BitOk(sb, s, b);
    MarkedOk(sb, s, b, true);
    WithDataOk(sb, Marked(sb, s, b, true), b, Zeros());
  }

  /** r is s with an empty slot filled with a zeroed block that was free. */
  ghost predicate Filled(sb: Super, s: Fs, r: Fs, i: nat, k: nat) {
    && Sound(sb, s) && Sound(sb, r) && i < |s.inode| && k < NSLOT
    && SlotAt(s, i, k) == 0 && SameSlotsBut(sb, s, r, i, k) && SameData(s, r, 0)
    && (var b := SlotAt(r, i, k);
        b in Free(sb, s) && r.owner == s.owner[b := Slot(i, k)] && b < |r.disk| && r.disk[b] == Zeros())
    && SameHeads(s, r, i)
  }

  /** Inodes change in the block numbers of inode i at most. */
  ghost predicate SameHeads(s: Fs, r: Fs, i: nat)
    requires i < |s.inode|
  {
    && |r.inode| == |s.inode| && r.inode[i].(addrs := s.inode[i].addrs) == s.inode[i]
    && forall j :: 0 <= j < |s.inode| && j != i ==> r.inode[j] == s.inode[j]
  }

  lemma FilledAddr(sb: Super, s: Fs, m: Fs, i: nat, k: nat, b: nat)
    requires Sound(sb, s) && Allocated(sb, s, m, b) && i < |s.inode| && k <= INDIRECT && SlotAt(s, i, k) == 0
    ensures Filled(sb, s, WithAddr(m, i, k, b), i, k)
  {
    hide Used, SlotAt, SlotOk, OwnerOk, BitOk;
    WithAddrOk(sb, m, i, k, b);
    DataThrough(sb, s, m, WithAddr(m, i, k, b), b);
  }

  lemma FilledEntry(sb: Super, s: Fs, m: Fs, i: nat, j: nat, b: nat)
    requires Sound(sb, s) && Allocated(sb, s, m, b) && i < |s.inode| && j < NINDIRECT
    requires SlotAt(s, i, INDIRECT) != 0 && SlotAt(s, i, INDIRECT + 1 + j) == 0
    ensures m.inode[i].addrs[INDIRECT] < |m.disk| && b < UINT
    ensures Filled(sb, s, WithEntry(m, i, j, b), i, INDIRECT + 1 + j)
    ensures SlotAt(WithEntry(m, i, j, b), i, INDIRECT + 1 + j) == b
  {
    hide Used, SlotAt, SlotOk, BitOk, Word, WithWord;
    WithEntryOk(sb, m, i, j, b);
    var r := WithEntry(m, i, j, b);
    assert OwnerOk(sb, m, b);
    ExactSlot(sb, m, i, INDIRECT);
    IndirectAt(m, i);
    DataThrough(sb, s, m, r, b);
  }

  lemma ExactSlot(sb: Super, s: Fs, i: nat, k: nat)
    requires Sound(sb, s) && i < |s.inode| && k < NSLOT && SlotAt(s, i, k) != 0
    ensures SlotAt(s, i, k) in s.owner && s.owner[SlotAt(s, i, k)] == Slot(i, k)
  {
    assert SlotOk(sb, s, i, k);
  }

  lemma DataThrough(sb: Super, s: Fs, m: Fs, r: Fs, b: nat)
    requires SameData(s, m, 0) && SameData(m, r, 0) && b !in s.owner && m.owner == s.owner[b := Pending]
    ensures SameData(s, r, 0)
  {
  }

  /** Filling a slot with a zeroed block changes no byte of any file. */
  lemma FilledFiles(sb: Super, s: Fs, r: Fs, i: nat, k: nat)
    requires Filled(sb, s, r, i, k)
    ensures SameFiles(sb, s, r)
  {
    hide Used, SlotAt, SlotOk, OwnerOk, BitOk;
    forall j, p | 0 <= j < |s.inode| && 0 <= p < MAXFILE * BSIZE ensures Raw(r, j, p) == Raw(s, j, p) {
      var l := FileSlot(p / BSIZE);
      if SlotAt(s, j, l) != 0 { ExactSlot(sb, s, j, l); }
    }
  }

  /** r is s with the empty slots of inode i among w filled, and nothing lost:
      as many blocks have left the free ones as slots were empty. */
  ghost predicate Extended(sb: Super, s: Fs, r: Fs, i: nat, w: set<nat>) {
    && Sound(sb, s) && Sound(sb, r) && i < |s.inode| && SameHeads(s, r, i) && SameFiles(sb, s, r)
    && (Settled(s) ==> Settled(r))
    && (forall j, l :: 0 <= j < |s.inode| && 0 <= l < NSLOT && (j != i || l !in w || SlotAt(s, j, l) != 0) ==>
          SlotAt(r, j, l) == SlotAt(s, j, l))
    && (forall l :: 0 <= l < NSLOT && l in w ==> SlotAt(r, i, l) != 0)
    && |Free(sb, r)| + |Empty(s, i, w)| == |Free(sb, s)|
  }

  lemma ExtendedSound(sb: Super, s: Fs, r: Fs, i: nat, w: set<nat>)
    requires Extended(sb, s, r, i, w)
    ensures Sound(sb, r) && i < |r.inode| == |s.inode|
  {
    hide SlotAt, SlotOk, OwnerOk, BitOk;
  }

  lemma ExtendedNone(sb: Super, s: Fs, i: nat, k: nat)
    requires Sound(sb, s) && i < |s.inode| && k < NSLOT && SlotAt(s, i, k) != 0
    ensures Extended(sb, s, s, i, {k})
  {
    assert Empty(s, i, {k}) == {};
  }

  lemma ExtendedOne(sb: Super, s: Fs, r: Fs, i: nat, k: nat)
    requires Filled(sb, s, r, i, k)
    ensures Extended(sb, s, r, i, {k})
  {
    hide Used, SlotAt, SlotOk, OwnerOk, BitOk;
    FilledFiles(sb, s, r, i, k);
    assert Empty(s, i, {k}) == {k};
    assert Free(sb, r) == Free(sb, s) - {SlotAt(r, i, k)};
    BelowDisk(sb, r, i, k);
  }

  lemma BelowDisk(sb: Super, s: Fs, i: nat, k: nat)
    requires Sound(sb, s) && i < |s.inode| && k < NSLOT && SlotAt(s, i, k) != 0
    ensures sb.datastart <= SlotAt(s, i, k) < sb.size <= |s.disk| && 0 < sb.datastart
  {
    assert SlotOk(sb, s, i, k);
  }

  lemma ExtendedTwo(sb: Super, s: Fs, m: Fs, r: Fs, i: nat, k: nat, l: nat)
    requires Extended(sb, s, m, i, {k}) && Extended(sb, m, r, i, {l}) && k != l && k < NSLOT && l < NSLOT
    ensures Extended(sb, s, r, i, {k, l})
  {
    hide Used, SlotAt, SlotOk, OwnerOk, BitOk, Raw;
    assert Empty(s, i, {k, l}) == Empty(s, i, {k}) + Empty(m, i, {l});
    assert Empty(s, i, {k}) !! Empty(m, i, {l});
  }

  /** What is still empty among more slots. */
  lemma EmptyLeft(sb: Super, s: Fs, r: Fs, i: nat, w: set<nat>, all: set<nat>)
    requires Extended(sb, s, r, i, w) && w <= all
    ensures |Empty(r, i, all)| + |Empty(s, i, w)| == |Empty(s, i, all)|
  {
    hide Used, SlotAt, SlotOk, OwnerOk, BitOk, Raw;
    assert Empty(s, i, all) == Empty(r, i, all) + Empty(s, i, w);
    assert Empty(r, i, all) !! Empty(s, i, w);
  }

  lemma EmptyWithin(s: Fs, i: nat, w: set<nat>, all: set<nat>)
    requires i < |s.inode| && |s.inode[i].addrs| == NDIRECT + 1 && w <= all
    ensures |Empty(s, i, w)| <= |Empty(s, i, all)|
  {
    hide SlotAt;
    Smaller(Empty(s, i, w), Empty(s, i, all));
  }
}
