/** Disk inodes: sixteen little-endian words each, eight to a block; and the images
    a file system can start from. */
module FsInodes {
  import opened FsBytes
  import opened FsFiles
  import opened FsState
  import opened Params

  /** sizeof(struct dinode) in words, and inodes in a block. */
  const IWORDS: nat := 16
  const IPB: nat := 8

  /** A 16-bit field as it is stored, and as it is read back. */
  function Ushort(x: short): (w: nat)
    ensures w < 0x1_0000
  {
    x % 0x1_0000
  }

  function Signed(w: nat): short
    requires w < 0x1_0000
  {
    if w < 0x8000 then w else w - 0x1_0000
  }

  lemma SignedBack(x: short)
    ensures Signed(Ushort(x)) == x
  {
    assert x < 0 ==> x % 0x1_0000 == x + 0x1_0000;
  }

  /** What fits in the fields of a disk inode. */
  predicate Fits(n: Inode) {
    |n.addrs| == NDIRECT + 1 && n.size < UINT && forall k :: 0 <= k <= NDIRECT ==> n.addrs[k] < UINT
  }

  /** struct dinode, word by word: type and major, minor and nlink, size, addrs. */
  function Words(n: Inode): (ws: seq<nat>)
    requires Fits(n)
    ensures |ws| == IWORDS && forall k :: 0 <= k < IWORDS ==> ws[k] < UINT
  {
    [Ushort(n.typ) + 0x1_0000 * Ushort(n.major), Ushort(n.minor) + 0x1_0000 * Ushort(n.nlink), n.size] + n.addrs
  }

  lemma WordsAre(n: Inode)
    requires Fits(n)
    ensures |n.addrs| == NDIRECT + 1 && n.size < UINT && forall k :: 0 <= k <= NDIRECT ==> n.addrs[k] < UINT
    ensures var ws := Words(n);
            && ws[0] == Ushort(n.typ) + 0x1_0000 * Ushort(n.major)
                 && ws[1] == Ushort(n.minor) + 0x1_0000 * Ushort(n.nlink)
            && ws[2] == n.size && forall k :: 0 <= k <= NDIRECT ==> ws[3 + k] == n.addrs[k]
  {
  }

  /** The words ws stored from word j on. */
  function WithWords(b: Block, j: nat, ws: seq<nat>): Block
    requires j + |ws| <= NINDIRECT && forall k :: 0 <= k < |ws| ==> ws[k] < UINT
  {
    if ws == [] then b else WithWord(WithWords(b, j, ws[..|ws| - 1]), j + |ws| - 1, ws[|ws| - 1])
  }

  lemma {:induction false} WordsPut(b: Block, j: nat, ws: seq<nat>, i: nat)
    requires j + |ws| <= NINDIRECT && i < NINDIRECT && forall k :: 0 <= k < |ws| ==> ws[k] < UINT
    ensures Word(WithWords(b, j, ws), i) == if j <= i < j + |ws| then ws[i - j] else Word(b, i)
  {
    hide Word, WithWord;
    if ws != [] {
      var n := |ws| - 1;
      WordsPut(b, j, ws[..n], i);
      WordPut(WithWords(b, j, ws[..n]), j + n, ws[n], i);
    }
  }

  /** Word k of the x-th inode of an inode block. */
  function Field(b: Block, x: nat, k: nat): (w: nat)
    requires x < IPB && k < IWORDS
    ensures w < UINT
  {
    Word(b, IWORDS * x + k)
  }

  function Addrs(b: Block, x: nat): (a: seq<nat>)
    requires x < IPB
    ensures |a| == NDIRECT + 1 && forall k :: 0 <= k <= NDIRECT ==> a[k] == Field(b, x, 3 + k)
  {
    seq<nat>(NDIRECT + 1, k requires 0 <= k <= NDIRECT => Field(b, x, 3 + k))
  }

  /** The x-th inode of an inode block. */
  function InodeOf(b: Block, x: nat): (n: Inode)
    requires x < IPB
    ensures Fits(n)
  {
    var w0, w1 := Field(b, x, 0), Field(b, x, 1);
    Inode(Signed(w0 % 0x1_0000), Signed(w0 / 0x1_0000), Signed(w1 % 0x1_0000), Signed(w1 / 0x1_0000), Field(b, x, 2),
        Addrs(b, x))
  }

  /** Storing an inode and reading it back gives the inode, and no other inode of
      the block changes. */
  lemma InodePut(b: Block, x: nat, n: Inode, y: nat)
    requires x < IPB && y < IPB && Fits(n)
    ensures InodeOf(WithWords(b, IWORDS * x, Words(n)), y) == if y == x then n else InodeOf(b, y)
  {
    hide Word, WithWords;
    var r, ws := WithWords(b, IWORDS * x, Words(n)), Words(n);
    forall k | 0 <= k < IWORDS ensures Field(r, y, k) == if y == x then ws[k] else Field(b, y, k) {
      WordsPut(b, IWORDS * x, ws, IWORDS * y + k);
    }
    if y == x {
      InodeBack(r, x, n);
    } else {
      assert InodeOf(r, y).addrs == InodeOf(b, y).addrs;
    }
  }

  lemma InodeBack(r: Block, x: nat, n: Inode)
    requires x < IPB && Fits(n) && forall k :: 0 <= k < IWORDS ==> Field(r, x, k) == Words(n)[k]
    ensures InodeOf(r, x) == n
  {
    hide Field;
    var ws := Words(n);
    assert Field(r, x, 0) == ws[0] && Field(r, x, 1) == ws[1] && Field(r, x, 2) == ws[2];
    SignedBack(n.typ);
    SignedBack(n.major);
    SignedBack(n.minor);
    SignedBack(n.nlink);
    forall k | 0 <= k <= NDIRECT ensures Field(r, x, 3 + k) == n.addrs[k] {
      assert Field(r, x, 3 + k) == ws[3 + k];
    }
    assert InodeOf(r, x).addrs == n.addrs;
  }

  /** Inode i of the inode blocks. */
  function Stored(table: seq<Block>, i: nat): (n: Inode)
    requires i < |table| * IPB
    ensures Fits(n)
  {
    InodeOf(table[i / IPB], i % IPB)
  }

  /** The two bytes at o, the low one first. */
  function Half(b: Block, o: nat): nat
    requires o + 1 < BSIZE
  {
    var low: int, high: int := b[o], b[o + 1];
    low + 0x100 * high
  }

  /** struct dinode as bytes: 64 for each inode, with type, major, minor and nlink
      in two bytes each, the size in four, and then the thirteen block numbers. */
  lemma StoredBytes(table: seq<Block>, i: nat)
    requires i < |table| * IPB
    ensures var n, b, o := Stored(table, i), table[i / IPB], 64 * (i % IPB);
            && i / IPB * BSIZE + o == i * 64
            && Ushort(n.typ) == Half(b, o) && Ushort(n.major) == Half(b, o + 2)
            && Ushort(n.minor) == Half(b, o + 4) && Ushort(n.nlink) == Half(b, o + 6)
            && n.size == Word(b, o / 4 + 2) && forall k :: 0 <= k <= NDIRECT ==> n.addrs[k] == Word(b, o / 4 + 3 + k)
  {
    hide Word, Half;
    var b, x := table[i / IPB], i % IPB;
    Halves(b, IWORDS * x);
    Halves(b, IWORDS * x + 1);
    UshortBack(Field(b, x, 0) % 0x1_0000);
    UshortBack(Field(b, x, 0) / 0x1_0000);
    UshortBack(Field(b, x, 1) % 0x1_0000);
    UshortBack(Field(b, x, 1) / 0x1_0000);
  }

  lemma Halves(b: Block, j: nat)
    requires j < NINDIRECT
    ensures Word(b, j) % 0x1_0000 == Half(b, 4 * j) && Word(b, j) / 0x1_0000 == Half(b, 4 * j + 2)
  {
    assert Word(b, j) == Half(b, 4 * j) + 0x1_0000 * Half(b, 4 * j + 2);
  }

  lemma UshortBack(w: nat)
    requires w < 0x1_0000
    ensures Ushort(Signed(w)) == w
  {
  }

  /** The first n inodes, as ilock reads them. */
  function Loaded(table: seq<Block>, n: nat): (r: seq<Inode>)
    requires n <= |table| * IPB
    ensures |r| == n && forall i :: 0 <= i < n ==> r[i] == Stored(table, i)
  {
    seq(n, i requires 0 <= i < n => Stored(table, i))
  }

  lemma StoredPut(table: seq<Block>, i: nat, n: Inode, j: nat)
    requires i < |table| * IPB && j < |table| * IPB && Fits(n)
    ensures var b := WithWords(table[i / IPB], IWORDS * (i % IPB), Words(n));
            Stored(table[i / IPB := b], j) == if j == i then n else Stored(table, j)
  {
    hide Word, WithWords, InodeOf, Words;
    assert i / IPB < |table| && j / IPB < |table|;
    InodePut(table[i / IPB], i % IPB, n, j % IPB);
  }

  /** Storing the words one after the other. */
  lemma FirstWords(b: Block, j: nat, ws: seq<nat>)
    requires |ws| == IWORDS && j + IWORDS <= NINDIRECT && forall k :: 0 <= k < |ws| ==> ws[k] < UINT
    ensures WithWords(b, j, ws[..3]) == WithWord(WithWord(WithWord(b, j, ws[0]), j + 1, ws[1]), j + 2, ws[2])
  {
    hide WithWord;
    assert ws[..3][..2] == ws[..2] && ws[..2][..1] == ws[..1] && ws[..1][..0] == [];
    assert WithWords(b, j, ws[..1]) == WithWord(b, j, ws[0]);
    assert WithWords(b, j, ws[..2]) == WithWord(WithWords(b, j, ws[..1]), j + 1, ws[1]);
  }

  lemma NextWord(b: Block, j: nat, ws: seq<nat>, k: nat)
    requires k < |ws| && j + |ws| <= NINDIRECT && forall k :: 0 <= k < |ws| ==> ws[k] < UINT
    ensures WithWords(b, j, ws[..k + 1]) == WithWord(WithWords(b, j, ws[..k]), j + k, ws[k])
  {
    hide WithWord;
    assert ws[..k + 1][..k] == ws[..k];
  }

  lemma FitsEmpty(n: Inode)
    requires n.addrs == NoAddrs() && n.size == 0
    ensures Fits(n)
  {
  }

  lemma FitsSlots(sb: Super, s: Fs, i: nat, n: Inode)
    requires Sound(sb, s) && i < |s.inode| && n.addrs == s.inode[i].addrs && n.size < UINT
    ensures Fits(n)
  {
    forall k | 0 <= k <= NDIRECT ensures n.addrs[k] < UINT {
      assert SlotOk(sb, s, i, k);
    }
  }

  // ---- where a file system starts

  /** Block b is in some slot. */
  ghost predicate Slotted(s: Fs, b: nat)
    requires forall i :: 0 <= i < |s.inode| ==> |s.inode[i].addrs| == NDIRECT + 1
  {
    b != 0 && exists i, k :: 0 <= i < |s.inode| && 0 <= k < NSLOT && SlotAt(s, i, k) == b
  }

  /** An image to mount: every slot names a data block, no two the same one, a bit
      is set exactly for metadata and for blocks in slots, and no file has a hole. */
  ghost predicate Consistent(sb: Super, s: Fs) {
    && LayoutOk(sb, s)
    && (forall i, k :: 0 <= i < |s.inode| && 0 <= k < NSLOT && SlotAt(s, i, k) != 0 ==>
          sb.datastart <= SlotAt(s, i, k) < sb.size)
    && (forall i, k, j, l :: 0 <= i < |s.inode| && 0 <= k < NSLOT && 0 <= j < |s.inode| && 0 <= l < NSLOT ==>
          (i == j && k == l) || SlotAt(s, i, k) == 0 || SlotAt(s, i, k) != SlotAt(s, j, l))
    && (forall b :: 0 <= b < sb.size ==> (Used(sb, s.disk, b) <==> b < sb.datastart || Slotted(s, b)))
    && AllNoHoles(s)
  }

  /** Who has each block of an image. */
  ghost function Owners(sb: Super, s: Fs): (r: map<nat, Owner>)
    requires LayoutOk(sb, s)
    ensures forall b :: b in r <==> 0 <= b < sb.size && Slotted(s, b)
    ensures forall b :: b in r ==> r[b].Slot? && r[b].i < |s.inode| && r[b].k < NSLOT && SlotAt(s, r[b].i, r[b].k) == b
  {
    map b | 0 <= b < sb.size && Slotted(s, b) :: SlotOf(s, b)
  }

  ghost function SlotOf(s: Fs, b: nat): (r: Owner)
    requires forall i :: 0 <= i < |s.inode| ==> |s.inode[i].addrs| == NDIRECT + 1
    requires Slotted(s, b)
    ensures r.Slot? && r.i < |s.inode| && r.k < NSLOT && SlotAt(s, r.i, r.k) == b
  {
    var i, k :| 0 <= i < |s.inode| && 0 <= k < NSLOT && SlotAt(s, i, k) == b;
    Slot(i, k)
  }

  lemma MountSound(sb: Super, s: Fs, r: Fs)
    requires Consistent(sb, s) && r == s.(owner := Owners(sb, s))
    ensures Sound(sb, r) && FsState.Settled(r) && AllNoHoles(r)
    ensures forall b :: 0 <= b < sb.size ==> (Slotted(r, b) <==> b in r.owner)
  {
    hide Used, MapBlock, NoHoles, SlotAt, Slotted, SlotOk, OwnerOk, BitOk, Owners;
    OwnersAre(sb, s);
    forall i, k | 0 <= i < |s.inode| && 0 <= k < NSLOT ensures SlotOk(sb, r, i, k) { MountSlot(sb, s, r, i, k); }
    forall b | b in r.owner ensures OwnerOk(sb, r, b) { MountOwner(sb, s, r, b); }
    forall b | 0 <= b < sb.size ensures BitOk(sb, r, b) && (Slotted(r, b) <==> b in r.owner) {
      MountBit(sb, s, r, b);
      SameSlotted(s, r, b);
    }
    forall j | 0 <= j < |s.inode| ensures |r.inode[j].addrs| == NDIRECT + 1 && NoHoles(r, j) { HolesSame(s, r, j); }
  }

  lemma OwnersAre(sb: Super, s: Fs)
    requires LayoutOk(sb, s)
    ensures forall b :: b in Owners(sb, s) <==> 0 <= b < sb.size && Slotted(s, b)
    ensures forall b :: b in Owners(sb, s) ==> Owners(sb, s)[b].Slot?
  {
    hide Slotted, SlotAt;
  }

  lemma MountSlot(sb: Super, s: Fs, r: Fs, i: nat, k: nat)
    requires Consistent(sb, s) && r == s.(owner := Owners(sb, s)) && i < |s.inode| && k < NSLOT
    ensures SlotOk(sb, r, i, k)
  {
    hide Used, MapBlock, NoHoles, SlotAt, AllNoHoles;
    SameSlot(s, r, i, k);
    var b := SlotAt(s, i, k);
    if b != 0 { assert Slotted(s, b); }
  }

  lemma MountOwner(sb: Super, s: Fs, r: Fs, b: nat)
    requires Consistent(sb, s) && r == s.(owner := Owners(sb, s)) && b in r.owner
    ensures OwnerOk(sb, r, b)
  {
    hide Used, MapBlock, NoHoles, SlotAt, AllNoHoles;
    SameSlot(s, r, r.owner[b].i, r.owner[b].k);
  }

  lemma MountBit(sb: Super, s: Fs, r: Fs, b: nat)
    requires Consistent(sb, s) && r == s.(owner := Owners(sb, s)) && b < sb.size
    ensures BitOk(sb, r, b)
  {
    hide Used, MapBlock, NoHoles, SlotAt, AllNoHoles, Slotted;
  }

  lemma SameSlot(s: Fs, r: Fs, i: nat, k: nat)
    requires r.disk == s.disk && r.inode == s.inode && i < |s.inode| && |s.inode[i].addrs| == NDIRECT + 1 && k < NSLOT
    ensures SlotAt(r, i, k) == SlotAt(s, i, k)
  {
    hide Word;
  }

  lemma SameSlotted(s: Fs, r: Fs, b: nat)
    requires r.disk == s.disk && r.inode == s.inode
    requires forall i :: 0 <= i < |s.inode| ==> |s.inode[i].addrs| == NDIRECT + 1
    ensures Slotted(r, b) <==> Slotted(s, b)
  {
    hide SlotAt;
    forall i, k | 0 <= i < |s.inode| && 0 <= k < NSLOT
      ensures SlotAt(r, i, k) == SlotAt(s, i, k) { SameSlot(s, r, i, k); }
  }

  lemma HolesSame(s: Fs, r: Fs, j: nat)
    requires r.disk == s.disk && r.inode == s.inode && j < |s.inode| && |s.inode[j].addrs| == NDIRECT + 1
    requires NoHoles(s, j)
    ensures NoHoles(r, j)
  {
    hide Word;
    forall bn | 0 <= bn < MAXFILE && bn * BSIZE < r.inode[j].size ensures SlotAt(r, j, FileSlot(bn)) != 0 {
      assert SlotAt(s, j, FileSlot(bn)) != 0;
    }
  }

  /** The free map mkfs starts from, with the metadata in use and no file yet, is
      such an image. */
  lemma FreshConsistent(sb: Super, s: Fs)
    requires FreshImage(sb, s.disk)
    requires forall i :: 0 <= i < |s.inode| ==> s.inode[i].addrs == NoAddrs() && s.inode[i].size == 0
    ensures Consistent(sb, s)
  {
    hide Used, MapBlock;
    forall i, k | 0 <= i < |s.inode| && 0 <= k < NSLOT ensures SlotAt(s, i, k) == 0 {}
  }

  /** mkfs ends by rounding the size of the root directory up past its last block.
      If its blocks are those below byte `off`, the rounded size has no hole
      exactly if the directory does not end at the end of a block. */
  lemma RootRounded(s: Fs, i: nat, off: nat)
    requires i < |s.inode| && |s.inode[i].addrs| == NDIRECT + 1 && off / BSIZE < MAXFILE
    requires forall bn :: 0 <= bn < MAXFILE ==> (SlotAt(s, i, FileSlot(bn)) != 0 <==> bn * BSIZE < off)
    ensures NoHolesTo(s, i, (off / BSIZE + 1) * BSIZE) <==> off % BSIZE != 0
  {
    hide SlotAt;
    var last := off / BSIZE;
    if off % BSIZE == 0 {
      assert SlotAt(s, i, FileSlot(last)) == 0 && last * BSIZE < (last + 1) * BSIZE;
    }
  }
}
