/** Blocks and files: the free-map allocator, the map from a file's blocks to
    disk blocks, truncation, and reading and writing a file as a byte array. */
module Fs {
  import opened FsBytes
  import opened Params
  import opened FsState
  import opened FsFiles
  import opened FsInodes

  class FileSystem {
    const sb: Super
    /** The blocks as readers of the buffer cache see them. */
    var disk: seq<Block>
    /** The in-memory inodes, and the inode blocks, which nothing else touches. */
    var inode: seq<Inode>
    var table: seq<Block>
    ghost var owner: map<nat, Owner>

    ghost function Now(): Fs
      reads this
    {
      Fs(disk, inode, owner)
    }

    ghost predicate Valid()
      reads this
    {
      Sound(sb, Now()) && |inode| <= |table| * IPB
    }

    /** The copy of inode i on the disk. */
    ghost function Dinode(i: nat): (n: Inode)
      requires i < |table| * IPB
      reads `table
      ensures Fits(n)
    {
      Stored(table, i)
    }

    /** A file system mounted from any consistent image, with its first n inodes
        read from the inode blocks as ilock reads them. */
    constructor (s: Super, image: seq<Block>, blocks: seq<Block>, n: nat)
      requires n <= |blocks| * IPB
      requires Consistent(s, Fs(image, Loaded(blocks, n), map[]))
      ensures Whole() && sb == s && disk == image && table == blocks && |inode| == n
      ensures forall i :: 0 <= i < n ==> inode[i] == Dinode(i)
      ensures forall b :: b in owner <==> 0 <= b < sb.size && Slotted(Now(), b)
    {
      hide Stored, SlotAt, Used, MapBlock, AllNoHoles, Slotted;
      ghost var f := Fs(image, Loaded(blocks, n), map[]);
      sb, disk, table, inode, owner := s, image, blocks, Loaded(blocks, n), Owners(s, f);
      new;
      MountSound(s, f, Now());
    }

    /** Marks a block in use, and zeroes it (bzero). */
    method Take(m: nat, bi: nat, b: nat)
      requires Valid() && b < sb.size && m == MapBlock(sb, b) < |disk| && bi == b % BPB && !Used(sb, disk, b)
      modifies `disk, `owner
      ensures Allocated(sb, old(Now()), Now(), b) && Valid()
    {
      hide SlotAt, SlotOk, OwnerOk, BitOk, WithMapBit, Used, MapBlock, SameData, SameSlotsBut;
      AllocatedOk(sb, Now(), b);
      disk := disk[m := WithMapBit(disk[m], bi, true)];
      disk := disk[b := Zeros()];
      owner := owner[b := Pending];
    }

    /** balloc: takes the first free block, and zeroes it. */
    method Balloc() returns (addr: nat)
      requires Valid() && Free(sb, Now()) != {}
      modifies `disk, `owner
      ensures Allocated(sb, old(Now()), Now(), addr) && Valid()
      ensures forall c :: sb.datastart <= c < addr ==> c in owner
    {
      hide SlotAt, SlotOk, OwnerOk, BitOk, MapBit, Used, MapBlock, SameData, SameSlotsBut, AllUsed;
      var b := 0;
      NoneUsed(sb, disk);
      while b < sb.size
        invariant b % BPB == 0
        invariant disk == old(disk) && owner == old(owner) && AllUsed(sb, disk, b)
      {
        MapBlockIn(sb, b, sb.size - 1);
        assert MapBlock(sb, b) < |disk|;
        var m := MapBlock(sb, b);
        var bi := 0;
        while bi < BPB && b + bi < sb.size
          invariant bi <= BPB
          invariant disk == old(disk) && owner == old(owner) && AllUsed(sb, disk, b + bi)
        {
          UsedAt(sb, disk, b, bi);
          if !MapBit(disk[m], bi) {
            UsedAll(sb, Now(), b + bi);
            addr := b + bi;
            Take(m, bi, addr);
            return;
          }
          bi := bi + 1;
        }
        UsedPast(sb, disk, b + bi, b + BPB);
        b := b + BPB;
      }
      UsedAll(sb, Now(), b);
      assert false;
    }

    /** bfree: the panic is the case the precondition leaves out. */
    method Bfree(b: nat)
      requires 0 < sb.size && MapBlock(sb, sb.size - 1) < |disk| && b < sb.size
      requires MapBlock(sb, b) < |disk| && Used(sb, disk, b)
      modifies `disk
      ensures disk == old(disk)[MapBlock(sb, b) := WithMapBit(old(disk)[MapBlock(sb, b)], b % BPB, false)]
    {
      var m := MapBlock(sb, b);
      disk := disk[m := WithMapBit(disk[m], b % BPB, false)];
    }

    /** iupdate: the fields of the inode go into its place in its block, and into
        no other. */
    method Iupdate(i: nat)
      requires i < |inode| <= |table| * IPB && Fits(inode[i])
      modifies `table
      ensures |table| == |old(table)| && Dinode(i) == inode[i]
      ensures forall j :: 0 <= j < |inode| && j != i ==> Dinode(j) == old(Dinode(j))
      ensures forall b :: 0 <= b < |table| && b != i / IPB ==> table[b] == old(table)[b]
    {
      hide Stored, Word, WithWord, WithWords, Words, Fits;
      assert i / IPB < |table|;
      var bp, ip, dip := table[i / IPB], inode[i], IWORDS * (i % IPB);
      ghost var was, ws := bp, Words(ip);
      WordsAre(ip);
      FirstWords(bp, dip, ws);
      bp := WithWord(bp, dip, Ushort(ip.typ) + 0x1_0000 * Ushort(ip.major));
      bp := WithWord(bp, dip + 1, Ushort(ip.minor) + 0x1_0000 * Ushort(ip.nlink));
      bp := WithWord(bp, dip + 2, ip.size);
      for k := 0 to NDIRECT + 1
        modifies {}
        invariant bp == WithWords(was, dip, ws[..3 + k])
      {
        NextWord(was, dip, ws, 3 + k);
        bp := WithWord(bp, dip + 3 + k, ip.addrs[k]);
      }
      assert ws[..3 + (NDIRECT + 1)] == ws;
      forall j | 0 <= j < |inode|
        ensures Stored(table[i / IPB := bp], j) == if j == i then ip else Stored(table, j)
      {
        StoredPut(table, i, ip, j);
      }
      StoredPut(table, i, ip, i);
      table := table[i / IPB := bp];
    }

    /** The direct and indirect slots of an inode: allocate and note the block. */
    method AllocAddr(i: nat, k: nat) returns (addr: nat)
      requires Valid() && i < |inode| && k <= INDIRECT && SlotAt(Now(), i, k) == 0 && Free(sb, Now()) != {}
      modifies `disk, `owner, `inode
      ensures Filled(sb, old(Now()), Now(), i, k) && Valid() && addr == SlotAt(Now(), i, k)
    {
      hide SlotOk, OwnerOk, BitOk, Word, SameData, SameSlotsBut;
      ghost var s := Now();
      addr := Balloc();
      FilledAddr(sb, s, Now(), i, k, addr);
      inode := inode[i := inode[i].(addrs := inode[i].addrs[k := addr])];
      owner := owner[addr := Slot(i, k)];
    }

    /** bmap */
    method Bmap(i: nat, bn: nat) returns (addr: nat)
      requires Valid() && i < |inode| && bn < MAXFILE
      requires |Empty(Now(), i, Path(bn))| <= |Free(sb, Now())|
      modifies `disk, `owner, `inode
      ensures Extended(sb, old(Now()), Now(), i, Path(bn)) && Valid()
      ensures addr == SlotAt(Now(), i, FileSlot(bn)) && 0 < addr < |disk|
      ensures Empty(old(Now()), i, Path(bn)) == {} ==> Now() == old(Now())
    {
      hide SlotOk, OwnerOk, BitOk, Word, WithWord, SameData, SameSlotsBut, Extended, Filled, SameFiles;
      ghost var s := Now();
      if bn < NDIRECT {
        addr := inode[i].addrs[bn];
        if addr == 0 {
          assert bn in Empty(s, i, Path(bn));
          EmptyFree(s, i, bn, Path(bn), Free(sb, s));
          addr := AllocAddr(i, bn);
          ExtendedOne(sb, s, Now(), i, bn);
        } else {
          ExtendedNone(sb, s, i, bn);
        }
        AddrIn(sb, s, Now(), i, bn);
        return;
      }
      var e := bn - NDIRECT;
      addr := inode[i].addrs[NDIRECT];
      if addr == 0 {
        assert INDIRECT in Empty(s, i, Path(bn));
        EmptyFree(s, i, INDIRECT, Path(bn), Free(sb, s));
        addr := AllocAddr(i, INDIRECT);
        ExtendedOne(sb, s, Now(), i, INDIRECT);
      } else {
        ExtendedNone(sb, s, i, INDIRECT);
      }
      ghost var t := Now();
      ExtendedSound(sb, s, t, i, {INDIRECT});
      AddrIn(sb, s, t, i, INDIRECT);
      var bp := addr;
      EntryAt(t, i, e);
      addr := Word(disk[bp], e);
      if addr == 0 {
        SecondFree(sb, s, t, i, bn);
        addr := AllocEntry(i, e);
        ExtendedOne(sb, t, Now(), i, bn + 1);
      } else {
        ExtendedNone(sb, t, i, bn + 1);
      }
      ExtendedTwo(sb, s, t, Now(), i, INDIRECT, bn + 1);
      AddrIn(sb, t, Now(), i, bn + 1);
    }

    /** An entry of the indirect block: allocate and note the block. */
    method AllocEntry(i: nat, e: nat) returns (addr: nat)
      requires Valid() && i < |inode| && e < NINDIRECT && Free(sb, Now()) != {}
      requires SlotAt(Now(), i, INDIRECT) != 0 && SlotAt(Now(), i, INDIRECT + 1 + e) == 0
      modifies `disk, `owner
      ensures Filled(sb, old(Now()), Now(), i, INDIRECT + 1 + e) && Valid()
      ensures addr == SlotAt(Now(), i, INDIRECT + 1 + e)
    {
      hide SlotOk, OwnerOk, BitOk, Word, WithWord, SameData, SameSlotsBut;
      ghost var s := Now();
      var bp := inode[i].addrs[INDIRECT];
      IndirectAt(s, i);
      addr := Balloc();
      FilledEntry(sb, s, Now(), i, e, addr);
      disk := disk[bp := WithWord(disk[bp], e, addr)];
      owner := owner[addr := Slot(i, INDIRECT + 1 + e)];
    }

    // ---- itrunc

    method FreeDirect(i: nat, ghost s: Fs)
      requires Sound(sb, s) && i < |inode| && s == Now()
      modifies `disk, `inode
      ensures Cleared(sb, s.disk, disk, FirstBlocks(s, i, NDIRECT)) && AddrsCut(s.inode, inode, i, NDIRECT)
    {
      hide SlotAt, SlotOk, OwnerOk, BitOk, Used, MapBlock, WithMapBit;
      var j := 0;
      ClearedNone(sb, disk);
      while j < NDIRECT
        invariant j <= NDIRECT && AddrsCut(s.inode, inode, i, j)
        invariant Cleared(sb, s.disk, disk, FirstBlocks(s, i, j))
      {
        DirectAt(s, i, j);
        if inode[i].addrs[j] != 0 {
          NextFreed(sb, s, i, j);
          BfreeReady(sb, s.disk, disk, FirstBlocks(s, i, j), inode[i].addrs[j]);
          ClearedStep(sb, s.disk, disk, FirstBlocks(s, i, j), inode[i].addrs[j]);
          Bfree(inode[i].addrs[j]);
          inode := inode[i := inode[i].(addrs := inode[i].addrs[j := 0])];
        }
        j := j + 1;
      }
    }

    method FreeEntries(i: nat, a: Block, ghost s: Fs)
      requires Sound(sb, s) && i < |s.inode| && Cleared(sb, s.disk, disk, FirstBlocks(s, i, NDIRECT))
      requires 0 < s.inode[i].addrs[INDIRECT] < |s.disk| && a == s.disk[s.inode[i].addrs[INDIRECT]]
      modifies `disk
      ensures Cleared(sb, s.disk, disk, FirstBlocks(s, i, NSLOT - 1))
    {
      hide SlotAt, SlotOk, OwnerOk, BitOk, Used, MapBlock, WithMapBit, Word;
      var j := 0;
      while j < NINDIRECT
        invariant j <= NINDIRECT && Cleared(sb, s.disk, disk, FirstBlocks(s, i, NDIRECT + j))
      {
        EntryAt(s, i, j);
        if Word(a, j) != 0 {
          NextFreed(sb, s, i, NDIRECT + j);
          BfreeReady(sb, s.disk, disk, FirstBlocks(s, i, NDIRECT + j), Word(a, j));
          ClearedStep(sb, s.disk, disk, FirstBlocks(s, i, NDIRECT + j), Word(a, j));
          Bfree(Word(a, j));
        }
        j := j + 1;
      }
    }

    /** The indirect block of itrunc, once the direct blocks are gone. */
    method FreeIndirect(i: nat, ghost s: Fs)
      requires Sound(sb, s) && i < |s.inode| && AddrsCut(s.inode, inode, i, NDIRECT)
      requires Cleared(sb, s.disk, disk, FirstBlocks(s, i, NDIRECT))
      modifies `disk, `inode
      ensures Cleared(sb, s.disk, disk, FirstBlocks(s, i, NSLOT)) && AddrsCut(s.inode, inode, i, NDIRECT + 1)
    {
      hide SlotAt, SlotOk, OwnerOk, BitOk, Used, MapBlock, WithMapBit, Word;
      if inode[i].addrs[NDIRECT] != 0 {
        IndirectIn(sb, s, disk, i);
        IndirectAt(s, i);
        var a := disk[inode[i].addrs[NDIRECT]];
        FreeEntries(i, a, s);
        NextFreed(sb, s, i, NSLOT - 1);
        BfreeReady(sb, s.disk, disk, FirstBlocks(s, i, NSLOT - 1), inode[i].addrs[NDIRECT]);
        ClearedStep(sb, s.disk, disk, FirstBlocks(s, i, NSLOT - 1), inode[i].addrs[NDIRECT]);
        Bfree(inode[i].addrs[NDIRECT]);
        inode := inode[i := inode[i].(addrs := inode[i].addrs[NDIRECT := 0])];
      } else {
        NoEntries(s, i, NSLOT);
      }
    }

    /** itrunc: every block of the inode, and no other, goes back to the free map. */
    method Itrunc(i: nat)
      requires Whole() && i < |inode|
      modifies this
      ensures Whole()
      ensures inode == old(inode)[i := old(inode)[i].(addrs := NoAddrs(), size := 0)]
      ensures Dinode(i) == inode[i] && forall j :: 0 <= j < |inode| && j != i ==> Dinode(j) == old(Dinode(j))
      ensures Free(sb, Now()) == old(Free(sb, Now()) + BlocksOf(Now(), i))
      ensures forall j :: 0 <= j < |inode| && j != i ==> SameFile(old(Now()), Now(), j)
      ensures forall k :: 0 <= k < NSLOT ==> SlotAt(Now(), i, k) == 0
    {
      hide SlotAt, SlotOk, OwnerOk, BitOk, Used, MapBlock, WithMapBit, Word, Raw, SameFile, AllNoHoles, Stored, Cleared;
      ghost var s := Now();
      FreeDirect(i, s);
      FreeIndirect(i, s);
      AllBlocksFreed(sb, s, i);
      AddrsGone(s.inode, inode, i);
      owner := owner - BlocksOf(s, i);
      inode := inode[i := inode[i].(size := 0)];
      FitsEmpty(inode[i]);
      Iupdate(i);
      TruncatedFiles(sb, s, i, disk, Now());
    }

    // ---- files as byte arrays

    /** Between operations: no block in use is without a slot, and every file has
        all the blocks below its size. */
    ghost predicate Whole()
      reads this
    {
      Valid() && Settled(Now()) && AllNoHoles(Now())
    }

    /** readi on a plain file; -1 where the source returns it. */
    method Readi(i: nat, off: nat, n: nat) returns (r: int, dst: seq<byte>)
      requires Whole() && i < |inode| && off < UINT && n < UINT
      modifies `disk, `owner, `inode
      ensures Now() == old(Now())
      ensures r == -1 <==> off > inode[i].size || off + n >= UINT
      ensures r != -1 ==> r == (if off + n > inode[i].size then inode[i].size - off else n)
      ensures dst == if r == -1 then [] else Flat(Now(), i)[off..off + r]
    {
      hide SlotAt, SlotOk, OwnerOk, BitOk, Raw, Extended, NoHolesTo, Chunk;
      ghost var s := Now();
      dst := [];
      Wraps(off, n);
      if off > inode[i].size || (off + n) % UINT < off {
        return -1, [];
      }
      var left := if off + n > inode[i].size then inode[i].size - off else n;
      r := left;
      var tot, o := 0, off;
      while tot < left
        invariant tot <= left && o == off + tot && Now() == s && off + left <= s.inode[i].size
        invariant dst == Flat(s, i)[off..o]
      {
        HasPath(sb, s, i, o / BSIZE);
        var b := Bmap(i, o / BSIZE);
        var m := Chunk(o, left - tot);
        ReadStep(sb, s, i, o, m);
        dst := dst + disk[b][o % BSIZE..o % BSIZE + m];
        tot, o := tot + m, o + m;
      }
    }

    /** writei on a plain file; -1 where the source returns it. */
    method Writei(i: nat, src: seq<byte>, off: nat) returns (r: int)
      requires Whole() && i < |inode| && off < UINT && |src| < UINT
      requires off + |src| <= MAXFILE * BSIZE ==>
                 |Empty(Now(), i, Touched(off, off + |src|))| <= |Free(sb, Now())|
      modifies this
      ensures Whole()
      ensures r == -1 <==> off > old(inode)[i].size || off + |src| >= UINT || off + |src| > MAXFILE * BSIZE
      ensures r == -1 ==> Now() == old(Now()) && table == old(table)
      ensures r != -1 ==> r == |src| && |inode| == |old(inode)|
      ensures r != -1 ==> Flat(Now(), i) == Overwritten(Flat(old(Now()), i), off, src)
      ensures r != -1 ==> forall j :: 0 <= j < |inode| && j != i ==>
                SameFile(old(Now()), Now(), j) && Dinode(j) == old(Dinode(j))
      ensures old(Dinode(i) == inode[i]) ==> Dinode(i) == inode[i]
    {
      hide SlotAt, SlotOk, OwnerOk, BitOk, Raw, Extended, Writing, SameFile, AllNoHoles, Chunk, Overwritten,
           Patched, Touched, Flat, Empty, Free;
      ghost var s := Now();
      var n := |src|;
      Wraps(off, n);
      if off > inode[i].size || (off + n) % UINT < off {
        return -1;
      }
      if (off + n) % UINT > MAXFILE * BSIZE {
        return -1;
      }
      WritingStart(sb, s, i, src, off);
      var tot, o := 0, off;
      while tot < n
        invariant tot <= n && o == off + tot && table == old(table) && |inode| <= |table| * IPB
        invariant Writing(sb, s, Now(), i, src, off, tot)
      {
        ghost var before := Now();
        WritingPath(sb, s, before, i, src, off, tot, o);
        var b := Bmap(i, o / BSIZE);
        var m := Chunk(o, n - tot);
        WritingStep(sb, s, before, Now(), i, src, off, tot, o, m);
        disk := disk[b := Patched(disk[b], o % BSIZE, src[tot..tot + m])];
        WritingSound(sb, s, Now(), i, src, off, tot + m);
        tot, o := tot + m, o + m;
      }
      ghost var t := Now();
      WritingSound(sb, s, t, i, src, off, n);
      if n > 0 && o > inode[i].size {
        inode := inode[i := inode[i].(size := o)];
        FitsSlots(sb, t, i, inode[i]);
        Iupdate(i);
      }
      WrittenFiles(sb, s, t, Now(), i, src, off);
      r := n;
    }

    /** What is written is what is read. */
    method WriteThenRead(i: nat, src: seq<byte>, off: nat) returns (r: int, dst: seq<byte>)
      requires Whole() && i < |inode| && off <= inode[i].size && off + |src| <= MAXFILE * BSIZE
      requires |Empty(Now(), i, Touched(off, off + |src|))| <= |Free(sb, Now())|
      modifies this
      ensures Whole() && r == |src| && dst == src
    {
      hide SlotAt, SlotOk, OwnerOk, BitOk, Raw, NoHolesTo, SameFile;
      r := Writei(i, src, off);
      r, dst := Readi(i, off, |src|);
    }
  }
}
