/** The buffer cache of bio.c over the in-memory disk of memide.c.  The buffers
    are a fixed array; a pointer to one is its index, and the list head is the
    index behind the last buffer. */
module BufferCache {
  import opened RedoLog
  import opened Sets

  const ROOTDEV: nat := 1

  /** One buffer; `locked` is its sleep lock. */
  datatype Buf = Buf(valid: bool, dirty: bool, dev: nat, blockno: nat, refcnt: nat, locked: bool, data: Block)

  function Blank(): (b: Buf)
    ensures |b.data| == BLOCK_WORDS
  {
    Buf(false, false, 0, 0, 0, false, seq(BLOCK_WORDS, _ => 0))
  }

  ghost predicate Blocks(d: Disk) {
    forall b :: 0 <= b < |d| ==> |d[b]| == BLOCK_WORDS
  }

  /** The disk: one atomic write per block.  `history` remembers every state a
      write has led to, so that a crash between any two writes can be spoken of. */
  class MemDisk {
    var blocks: Disk
    ghost var history: seq<Disk>

    constructor (image: Disk)
      ensures blocks == image && history == []
    {
      blocks, history := image, [];
    }

    /** iderw: a dirty buffer is written to the disk in one step, an invalid one
        is filled from it. */
    method Iderw(buf: array<Buf>, i: nat)
      requires i < buf.Length && buf[i].locked && (buf[i].valid ==> buf[i].dirty)
      requires buf[i].dev == ROOTDEV && buf[i].blockno < |blocks|
      modifies this, buf
      ensures var b := old(buf[i]);
              && blocks == (if b.dirty then old(blocks)[b.blockno := b.data] else old(blocks))
              && history == (if b.dirty then old(history) + [blocks] else old(history))
              && buf[..] == old(buf[..])[i := b.(valid := true, dirty := false, data := blocks[b.blockno])]
    {
      var b := buf[i];
      if b.dirty {
        buf[i] := buf[i].(dirty := false);
        blocks := blocks[b.blockno := b.data];
        history := history + [blocks];
      } else {
        buf[i] := buf[i].(data := blocks[b.blockno]);
      }
      buf[i] := buf[i].(valid := true);
    }
  }

  // ---- the ring, on values

  /** The walk from the head through every buffer of the ring and back. */
  ghost function Lap(head: nat, ring: seq<nat>): (r: seq<nat>) {
    [head] + ring + [head]
  }

  ghost predicate Chain(prev: seq<nat>, next: seq<nat>, walk: seq<nat>) {
    && |prev| == |next|
    && (forall i :: 0 <= i < |walk| ==> walk[i] < |next|)
    && (forall i, j :: 0 <= i && j == i + 1 && j < |walk| ==> next[walk[i]] == walk[j] && prev[walk[j]] == walk[i])
  }

  /** The links form one cycle through the head that meets every buffer once, in
      both directions, in the order of decreasing release time. */
  ghost predicate RingOk(prev: seq<nat>, next: seq<nat>, ring: seq<nat>, stamp: seq<int>, clock: int) {
    var n := |stamp|;
    && |ring| == n && |next| == n + 1 && Distinct(ring)
    && (forall i :: 0 <= i < n ==> ring[i] < n)
    && (forall x: nat :: x < n ==> x in ring)
    && Chain(prev, next, Lap(n, ring))
    && (forall i, j :: 0 <= i < j < n ==> stamp[ring[i]] > stamp[ring[j]])
    && (forall x :: 0 <= x < n ==> stamp[x] < clock)
  }

  lemma LapAt(head: nat, ring: seq<nat>, i: nat)
    requires i < |ring| + 2
    ensures |Lap(head, ring)| == |ring| + 2
    ensures Lap(head, ring)[i] == if i == 0 || i == |ring| + 1 then head else ring[i - 1]
  {
  }

  /** Taking ring[k] out: the two links around it are joined. */
  lemma Unlinked(prev: seq<nat>, next: seq<nat>, head: nat, ring: seq<nat>, k: nat)
    requires Chain(prev, next, Lap(head, ring)) && Distinct(ring) && head !in ring && k < |ring|
    ensures ring[k] < |next| && prev[ring[k]] < |next| && next[ring[k]] < |next| && next[ring[k]] != ring[k]
    ensures var b := ring[k];
            Chain(prev[next[b] := prev[b]], next[prev[b] := next[b]], Lap(head, ring[..k] + ring[k + 1..]))
  {
    var full, rest := Lap(head, ring), ring[..k] + ring[k + 1..];
    var f := Lap(head, rest);
    assert full[k + 1] == ring[k] && full[k] < |next| && full[k + 2] < |next|;
    var b := ring[k];
    assert next[b] == full[k + 2] && prev[b] == full[k];
    forall i | 0 <= i < |f|
      ensures f[i] == full[if i <= k then i else i + 1] && f[i] < |next| && f[i] != b
    {
      LapAt(head, rest, i);
      LapAt(head, ring, if i <= k then i else i + 1);
    }
    var p, n := prev[next[b] := prev[b]], next[prev[b] := next[b]];
    forall i, j | 0 <= i && j == i + 1 && j < |f|
      ensures n[f[i]] == f[j] && p[f[j]] == f[i]
    {
      if i != k {
        var m := if i < k then i else i + 1;
        assert full[m] == f[i] && full[m + 1] == f[j];
        assert next[full[m]] == full[m + 1];
      }
    }
  }

  /** Putting b in right behind the head. */
  lemma InsertedFront(prev: seq<nat>, next: seq<nat>, head: nat, ring: seq<nat>, b: nat)
    requires Chain(prev, next, Lap(head, ring)) && Distinct(ring) && head !in ring && b !in ring && b != head
    requires b < |next|
    ensures head < |next| && next[head] < |next|
    ensures var p, n := prev[b := head], next[b := next[head]];
            Chain(p[n[head] := b], n[head := b], Lap(head, [b] + ring))
  {
    var full := Lap(head, ring);
    var f := Lap(head, [b] + ring);
    assert full[0] == head && full[1] < |next| && next[head] == full[1] && prev[full[1]] == head;
    forall i | 0 <= i < |f|
      ensures f[i] == (if i == 0 then head else if i == 1 then b else full[i - 1]) && f[i] < |next|
    {
      LapAt(head, [b] + ring, i);
      if i >= 2 { LapAt(head, ring, i - 1); }
    }
    var p, n := prev[b := head], next[b := next[head]];
    var p', n' := p[n[head] := b], n[head := b];
    forall i, j | 0 <= i && j == i + 1 && j < |f|
      ensures n'[f[i]] == f[j] && p'[f[j]] == f[i]
    {
      if i >= 2 {
        assert next[full[i - 1]] == full[i];
      }
    }
  }

  /** The two list operations of brelse: out of its place, in behind the head. */
  lemma MovedFront(prev: seq<nat>, next: seq<nat>, ring: seq<nat>, stamp: seq<int>, clock: int, b: nat) returns (k: nat)
    requires RingOk(prev, next, ring, stamp, clock) && b < |stamp|
    ensures k < |ring| && ring[k] == b && |prev| == |next| == |stamp| + 1
    ensures prev[b] < |next| && next[b] < |next| && next[b] != b
    ensures var h, r := |stamp|, [b] + (ring[..k] + ring[k + 1..]);
            var p, x := prev[next[b] := prev[b]], next[prev[b] := next[b]];
            && x[h] < |x|
            && (var p', x' := p[b := h], x[b := x[h]];
                && x'[h] < |x'|
                && RingOk(p'[x'[h] := b], x'[h := b], r, stamp[b := clock], clock + 1))
  {
    assert b in ring;
    k :| 0 <= k < |ring| && ring[k] == b;
    var h, rest := |stamp|, ring[..k] + ring[k + 1..];
    Unlinked(prev, next, h, ring, k);
    var p, x := prev[next[b] := prev[b]], next[prev[b] := next[b]];
    InsertedFront(p, x, h, rest, b);
    MovedOrder(ring, stamp, clock, k);
  }

  lemma MovedOrder(ring: seq<nat>, stamp: seq<int>, clock: int, k: nat)
    requires |ring| == |stamp| && Distinct(ring) && k < |ring| && (forall i :: 0 <= i < |ring| ==> ring[i] < |ring|)
    requires forall x: nat :: x < |ring| ==> x in ring
    requires forall i, j :: 0 <= i < j < |ring| ==> stamp[ring[i]] > stamp[ring[j]]
    requires forall x :: 0 <= x < |stamp| ==> stamp[x] < clock
    ensures var r, s := [ring[k]] + (ring[..k] + ring[k + 1..]), stamp[ring[k] := clock];
            && |r| == |ring| && Distinct(r) && (forall i :: 0 <= i < |r| ==> r[i] < |r|)
            && (forall x: nat :: x < |r| ==> x in r)
            && (forall i, j :: 0 <= i < j < |r| ==> s[r[i]] > s[r[j]])
            && (forall x :: 0 <= x < |s| ==> s[x] < clock + 1)
  {
    var r := [ring[k]] + (ring[..k] + ring[k + 1..]);
    forall x: nat | x < |r| ensures x in r {
      assert x in ring;
      var i :| 0 <= i < |ring| && ring[i] == x;
      assert r[if i == k then 0 else if i < k then i + 1 else i] == x;
    }
    forall i, j | 0 <= i < j < |r|
      ensures r[i] != r[j] && stamp[ring[k] := clock][r[i]] > stamp[ring[k] := clock][r[j]] {
      MovedPair(ring, stamp, clock, k, i, j);
    }
  }

  lemma MovedPair(ring: seq<nat>, stamp: seq<int>, clock: int, k: nat, i: nat, j: nat)
    requires |ring| == |stamp| && Distinct(ring) && k < |ring| && i < j < |ring|
    requires (forall i :: 0 <= i < |ring| ==> ring[i] < |ring|)
    requires forall i, j :: 0 <= i < j < |ring| ==> stamp[ring[i]] > stamp[ring[j]]
    requires forall x :: 0 <= x < |stamp| ==> stamp[x] < clock
    ensures var r, s := [ring[k]] + (ring[..k] + ring[k + 1..]), stamp[ring[k] := clock];
            && |r| == |ring| && r[i] < |ring| && r[j] < |ring| && r[i] != r[j] && s[r[i]] > s[r[j]]
  {
    var r := [ring[k]] + (ring[..k] + ring[k + 1..]);
    assert r[j] == ring[if j <= k then j - 1 else j];
    assert r[i] == ring[if i == 0 then k else if i <= k then i - 1 else i];
  }

  // ---- the contents, on values

  ghost predicate BufOk(b: Buf, i: nat, blocks: Disk, index: map<nat, nat>) {
    && (b.dev == ROOTDEV || (b.dev == 0 && b == Blank()))
    && (b.dev == ROOTDEV ==> b.blockno < |blocks| && b.blockno in index && index[b.blockno] == i)
    && (b.locked ==> b.refcnt > 0)
    && (b.dirty ==> b.valid)
    && |b.data| == BLOCK_WORDS
    && (b.valid && !b.dirty && b.refcnt == 0 ==> b.data == blocks[b.blockno])
  }

  /** `s` with x added or taken out. */
  ghost function Put(s: set<nat>, x: nat, present: bool): set<nat> {
    if present then s + {x} else s - {x}
  }

  /** What the cache shows its users, in terms of its buffers and the disk. */
  ghost predicate ViewOk(buf: seq<Buf>, blocks: Disk, index: map<nat, nat>, seen: Disk, dirties: set<nat>,
                         held: set<nat>) {
    && |seen| == |blocks|
    && (forall x :: x in index ==>
         x < |seen| && index[x] < |buf| && buf[index[x]].dev == ROOTDEV && buf[index[x]].blockno == x)
    && (forall x :: 0 <= x < |seen| ==>
          seen[x] == if x in index && buf[index[x]].valid then buf[index[x]].data else blocks[x])
    && (forall x :: x in dirties <==> x in index && buf[index[x]].dirty)
    && (forall x :: x in held <==> x in index && buf[index[x]].refcnt > 0)
  }

  ghost predicate BufsOk(buf: seq<Buf>, blocks: Disk, index: map<nat, nat>) {
    forall i :: 0 <= i < |buf| ==> BufOk(buf[i], i, blocks, index)
  }

  lemma BufAt(buf: seq<Buf>, blocks: Disk, index: map<nat, nat>, seen: Disk, dirties: set<nat>, held: set<nat>, i: nat)
    requires ViewOk(buf, blocks, index, seen, dirties, held) && BufsOk(buf, blocks, index) && Blocks(blocks)
    requires i < |buf| && (buf[i].dev == ROOTDEV || buf[i].locked)
    ensures var n := buf[i].blockno;
            && buf[i].dev == ROOTDEV && |seen| == |blocks| && BufOk(buf[i], i, blocks, index)
            && |blocks[n]| == BLOCK_WORDS
            && seen == seen[n := if buf[i].valid then buf[i].data else blocks[n]]
            && dirties == Put(dirties, n, buf[i].dirty) && held == Put(held, n, buf[i].refcnt > 0)
            && blocks == blocks[n := blocks[n]]
  {
    assert BufOk(buf[i], i, blocks, index);
  }

  lemma IndexAt(buf: seq<Buf>, blocks: Disk, index: map<nat, nat>, seen: Disk, dirties: set<nat>, held: set<nat>,
                x: nat)
    requires ViewOk(buf, blocks, index, seen, dirties, held) && x in index
    ensures index[x] < |buf| && buf[index[x]].dev == ROOTDEV && buf[index[x]].blockno == x && x < |seen| == |blocks|
    ensures x in held <==> buf[index[x]].refcnt > 0
    ensures x in dirties <==> buf[index[x]].dirty
  {
  }

  predicate InUse(b: Buf) {
    b.refcnt > 0 || b.dirty
  }

  lemma UsedIndexed(buf: seq<Buf>, blocks: Disk, index: map<nat, nat>, seen: Disk, dirties: set<nat>, held: set<nat>,
                    b: nat)
    requires ViewOk(buf, blocks, index, seen, dirties, held) && (b in dirties || b in held)
    ensures b in index
  {
  }

  /** No block is cached twice. */
  lemma OneCopy(buf: seq<Buf>, blocks: Disk, index: map<nat, nat>, i: nat, j: nat)
    requires BufsOk(buf, blocks, index) && i < |buf| && j < |buf|
    requires buf[i].dev == buf[j].dev && buf[i].blockno == buf[j].blockno && buf[i] != Blank()
    ensures i == j
  {
    assert BufOk(buf[i], i, blocks, index) && BufOk(buf[j], j, blocks, index);
  }

  /** If fewer blocks are held or pinned than there are buffers, bget finds a victim. */
  lemma SpareBuffer(buf: seq<Buf>, blocks: Disk, index: map<nat, nat>, seen: Disk, dirties: set<nat>, held: set<nat>)
    requires ViewOk(buf, blocks, index, seen, dirties, held) && BufsOk(buf, blocks, index)
    requires |dirties + held| < |buf|
    ensures exists i :: 0 <= i < |buf| && buf[i].refcnt == 0 && !buf[i].dirty
  {
    if forall i :: 0 <= i < |buf| ==> buf[i].refcnt > 0 || buf[i].dirty {
      var xs := seq(|buf|, i requires 0 <= i < |buf| => buf[i].blockno);
      forall i | 0 <= i < |xs|
        ensures xs[i] in dirties + held && xs[i] in index && index[xs[i]] == i
      {
        assert BufOk(buf[i], i, blocks, index);
      }
      Pigeonhole(xs, dirties + held);
    }
  }

  lemma {:induction false} Pigeonhole(xs: seq<nat>, s: set<nat>)
    requires Distinct(xs) && forall i :: 0 <= i < |xs| ==> xs[i] in s
    ensures |xs| <= |s|
  {
    if xs != [] {
      var last := |xs| - 1;
      Pigeonhole(xs[..last], s - {xs[last]});
    }
  }

  /** One buffer of a cached block changes, and perhaps that block of the disk. */
  lemma ViewChanges(buf: seq<Buf>, blocks: Disk, index: map<nat, nat>, seen: Disk, dirties: set<nat>, held: set<nat>,
                    i: nat, b: Buf, block: Block)
    requires ViewOk(buf, blocks, index, seen, dirties, held) && BufsOk(buf, blocks, index)
    requires i < |buf| && buf[i].dev == b.dev == ROOTDEV && buf[i].blockno == b.blockno && b.blockno < |blocks|
    requires BufOk(b, i, blocks[b.blockno := block], index)
    ensures BufsOk(buf[i := b], blocks[b.blockno := block], index)
    ensures ViewOk(buf[i := b], blocks[b.blockno := block], index,
                   seen[b.blockno := if b.valid then b.data else block],
                   Put(dirties, b.blockno, b.dirty), Put(held, b.blockno, b.refcnt > 0))
  {
    var n := b.blockno;
    var buf' := buf[i := b];
    forall j | 0 <= j < |buf'|
      ensures BufOk(buf'[j], j, blocks[n := block], index)
    {
      assert BufOk(buf[j], j, blocks, index);
    }
  }

  /** A buffer in nobody's use is given to another block. */
  lemma ViewRecycles(buf: seq<Buf>, blocks: Disk, index: map<nat, nat>, seen: Disk, dirties: set<nat>, held: set<nat>,
                     i: nat, blockno: nat)
    requires ViewOk(buf, blocks, index, seen, dirties, held) && BufsOk(buf, blocks, index)
    requires i < |buf| && buf[i].refcnt == 0 && !buf[i].dirty && blockno < |blocks| && blockno !in index
    ensures var index' := Reindexed(index, buf[i], blockno, i);
            var buf' := buf[i := Buf(false, false, ROOTDEV, blockno, 1, true, buf[i].data)];
            BufsOk(buf', blocks, index') && ViewOk(buf', blocks, index', seen, dirties, held + {blockno})
  {
    var index' := Reindexed(index, buf[i], blockno, i);
    var b := Buf(false, false, ROOTDEV, blockno, 1, true, buf[i].data);
    assert BufOk(buf[i], i, blocks, index);
    BufsRecycle(buf, blocks, index, i, b);
    ViewRecycle(buf, blocks, index, seen, dirties, held, i, b, index');
  }

  /** Index index' is index with the block that buffer i held, if any, taken out
      and the new block put in. */
  ghost predicate Reissued(buf: seq<Buf>, blocks: Disk, index: map<nat, nat>, i: nat, b: Buf, index': map<nat, nat>) {
    && i < |buf| && buf[i].refcnt == 0 && !buf[i].dirty
    && (buf[i].valid ==> buf[i].dev == ROOTDEV && buf[i].blockno < |blocks| && buf[i].data == blocks[buf[i].blockno])
    && b.dev == ROOTDEV && b.blockno < |blocks| && !b.valid && !b.dirty && b.refcnt > 0 && b.blockno !in index
    && (forall x :: x in index' <==> x == b.blockno || (x in index && index[x] != i))
    && (forall x :: x in index' ==> index'[x] == if x == b.blockno then i else index[x])
  }

  lemma ViewRecycle(buf: seq<Buf>, blocks: Disk, index: map<nat, nat>, seen: Disk, dirties: set<nat>, held: set<nat>,
                    i: nat, b: Buf, index': map<nat, nat>)
    requires ViewOk(buf, blocks, index, seen, dirties, held) && Reissued(buf, blocks, index, i, b, index')
    ensures ViewOk(buf[i := b], blocks, index', seen, dirties, held + {b.blockno})
  {
    RecycleSeen(buf, blocks, index, seen, dirties, held, i, b, index');
    assert forall x :: x in index && index[x] == i ==> x !in dirties && x !in held;
  }

  lemma RecycleSeen(buf: seq<Buf>, blocks: Disk, index: map<nat, nat>, seen: Disk, dirties: set<nat>, held: set<nat>,
                    i: nat, b: Buf, index': map<nat, nat>)
    requires ViewOk(buf, blocks, index, seen, dirties, held) && Reissued(buf, blocks, index, i, b, index')
    ensures forall x :: 0 <= x < |seen| ==>
              seen[x] == if x in index' && buf[i := b][index'[x]].valid then buf[i := b][index'[x]].data else blocks[x]
    ensures forall x :: x in index' ==> x < |seen| && index'[x] < |buf|
  {
  }

  lemma BufsRecycle(buf: seq<Buf>, blocks: Disk, index: map<nat, nat>, i: nat, b: Buf)
    requires BufsOk(buf, blocks, index) && i < |buf| && b.blockno !in index
    requires BufOk(b, i, blocks, Reindexed(index, buf[i], b.blockno, i))
    ensures BufsOk(buf[i := b], blocks, Reindexed(index, buf[i], b.blockno, i))
  {
    var buf' := buf[i := b];
    assert BufOk(buf[i], i, blocks, index);
    forall j | 0 <= j < |buf'|
      ensures BufOk(buf'[j], j, blocks, Reindexed(index, buf[i], b.blockno, i))
    {
      assert BufOk(buf[j], j, blocks, index);
    }
  }

  ghost function Reindexed(index: map<nat, nat>, old': Buf, blockno: nat, i: nat): map<nat, nat> {
    (if old'.dev == ROOTDEV then index - {old'.blockno} else index)[blockno := i]
  }

  method ChainAll(nbuf: nat) returns (prev: array<nat>, next: array<nat>, ghost ring: seq<nat>)
    ensures fresh(prev) && fresh(next) && prev != next
    ensures RingOk(prev[..], next[..], ring, seq(nbuf, i => i), nbuf)
  {
    prev := new nat[nbuf + 1](_ => nbuf);
    next := new nat[nbuf + 1](_ => nbuf);
    ring := [];
    for b := 0 to nbuf
      invariant |ring| == b && (forall k :: 0 <= k < b ==> ring[k] == b - 1 - k)
      invariant Chain(prev[..], next[..], Lap(nbuf, ring))
    {
      ghost var p, n := prev[..], next[..];
      InsertedFront(p, n, nbuf, ring, b);
      next[b] := next[nbuf];
      prev[b] := nbuf;
      assert next[..] == n[b := n[nbuf]] && prev[..] == p[b := nbuf];
      prev[next[nbuf]] := b;
      next[nbuf] := b;
      ring := [b] + ring;
    }
    forall x: nat | x < nbuf ensures x in ring { assert ring[nbuf - 1 - x] == x; }
  }

  /** Everything about the cache and its disk that its users can tell. */
  datatype View = View(disk: Disk, history: seq<Disk>, seen: Disk, dirties: set<nat>, held: set<nat>)

  /** How a request for a block ends: with the buffer, with a reference to a buffer
      somebody else has locked, or in the panic "no buffers". */
  datatype Fetch = Taken(i: nat) | Waits(i: nat) | NoBuffers

  /** Readers see the disk except where a buffer is pinned or held. */
  ghost predicate Coherent(v: View) {
    && |v.seen| == |v.disk| && Blocks(v.disk) && Blocks(v.seen)
    && (forall x :: 0 <= x < |v.seen| && x !in v.dirties && x !in v.held ==> v.seen[x] == v.disk[x])
  }

  class Bcache {
    const buf: array<Buf>
    const prev: array<nat>
    const next: array<nat>
    const disk: MemDisk
    ghost var ring: seq<nat>
    /** When each buffer was last released to reference count zero. */
    ghost var stamp: seq<int>
    ghost var clock: int
    /** The buffer of each cached block of the disk. */
    ghost var index: map<nat, nat>
    /** What bread of each block would return. */
    ghost var seen: Disk
    /** The blocks whose buffer waits for the log to install it. */
    ghost var dirties: set<nat>
    /** The blocks whose buffer some process holds. */
    ghost var held: set<nat>

    ghost function Repr(): set<object> {
      {this, buf, prev, next, disk}
    }

    ghost predicate Valid()
      reads Repr()
    {
      && prev != next && buf.Length == |stamp| > 0
      && RingOk(prev[..], next[..], ring, stamp, clock)
      && Blocks(disk.blocks)
      && BufsOk(buf[..], disk.blocks, index)
      && ViewOk(buf[..], disk.blocks, index, seen, dirties, held)
    }

    ghost function Shown(): View
      reads this, disk
    {
      View(disk.blocks, disk.history, seen, dirties, held)
    }

    lemma ShowsCoherent()
      requires Valid()
      ensures Coherent(Shown())
    {
      forall x: nat | x < |seen|
        ensures |seen[x]| == BLOCK_WORDS && (x !in dirties && x !in held ==> seen[x] == disk.blocks[x])
      {
        if x in index { assert BufOk(buf[..][index[x]], index[x], disk.blocks, index); }
      }
    }

    lemma SeenAll()
      requires Valid()
      ensures |seen| == |disk.blocks|
    {
    }

    /** The blocks that are held or pinned, and whether some block is both. */
    method Busy() returns (busy: set<nat>, clash: bool)
      requires Valid()
      ensures busy == dirties + held && (clash <==> exists b :: b in dirties && b in held)
    {
      hide RingOk, BufsOk, ViewOk;
      busy, clash := {}, false;
      for i := 0 to buf.Length
        invariant forall b :: b in busy <==> exists j :: 0 <= j < i && InUse(buf[j]) && buf[j].blockno == b
        invariant clash <==> exists j :: 0 <= j < i && buf[j].refcnt > 0 && buf[j].dirty
      {
        if buf[i].refcnt > 0 || buf[i].dirty { busy := busy + {buf[i].blockno}; }
        clash := clash || (buf[i].refcnt > 0 && buf[i].dirty);
      }
      BusyAre(busy);
    }

    lemma BusyAre(busy: set<nat>)
      requires Valid()
      requires forall b :: b in busy <==> exists j :: 0 <= j < buf.Length && InUse(buf[j]) && buf[j].blockno == b
      ensures busy == dirties + held
      ensures (exists b :: b in dirties && b in held) <==>
                exists j :: 0 <= j < buf.Length && buf[j].refcnt > 0 && buf[j].dirty
    {
      hide RingOk, ViewOk;
      forall j | 0 <= j < buf.Length && InUse(buf[j])
        ensures buf[j].dev == ROOTDEV && (buf[j].blockno in dirties <==> buf[j].dirty)
                && (buf[j].blockno in held <==> buf[j].refcnt > 0)
      {
        assert BufOk(buf[..][j], j, disk.blocks, index);
        BufAt(buf[..], disk.blocks, index, seen, dirties, held, j);
      }
      forall b | b in dirties + held
        ensures b in index && index[b] < buf.Length && buf[index[b]].blockno == b
                && (b in dirties <==> buf[index[b]].dirty) && (b in held <==> buf[index[b]].refcnt > 0)
      {
        UsedIndexed(buf[..], disk.blocks, index, seen, dirties, held, b);
        IndexAt(buf[..], disk.blocks, index, seen, dirties, held, b);
      }
    }

    /** Some buffer is neither referenced nor pinned; without one bget panics. */
    ghost predicate CanRecycle()
      reads buf
    {
      exists i :: 0 <= i < buf.Length && buf[i].refcnt == 0 && !buf[i].dirty
    }

    /** A block nobody holds can be read, and what bread returns for it is the
        disk block unless it is pinned. */
    lemma Readable(x: nat)
      requires Valid() && x < |disk.blocks| && x !in held && |dirties + held| < buf.Length
      ensures |seen| == |disk.blocks| && |seen[x]| == BLOCK_WORDS
      ensures x in index ==> index[x] < buf.Length && !buf[index[x]].locked && buf[index[x]].refcnt == 0
      ensures CanRecycle()
      ensures x !in dirties ==> seen[x] == disk.blocks[x]
    {
      SpareBuffer(buf[..], disk.blocks, index, seen, dirties, held);
      if x in index { assert BufOk(buf[..][index[x]], index[x], disk.blocks, index); }
    }

    lemma Holding(i: nat)
      requires Valid() && i < buf.Length && buf[i].locked
      ensures var b := buf[i];
              && b.dev == ROOTDEV && b.refcnt > 0 && b.blockno < |disk.blocks| == |seen| && b.blockno in held
              && (b.dirty <==> b.blockno in dirties) && (b.valid ==> seen[b.blockno] == b.data)
              && |b.data| == BLOCK_WORDS
    {
      BufAt(buf[..], disk.blocks, index, seen, dirties, held, i);
    }

    /** binit: each buffer is inserted behind the head in turn. */
    constructor Binit(nbuf: nat, d: MemDisk)
      requires nbuf > 0 && Blocks(d.blocks)
      ensures Valid() && fresh(Repr() - {d}) && disk == d && buf.Length == nbuf
      ensures seen == d.blocks && dirties == {} && held == {} && index == map[]
      ensures forall i :: 0 <= i < nbuf ==> buf[i] == Blank()
    {
      disk := d;
      var b := new Buf[nbuf](_ => Blank());
      var p, n, r := ChainAll(nbuf);
      buf, prev, next := b, p, n;
      ring, stamp, clock := r, seq(nbuf, i => i), nbuf;
      index, seen, dirties, held := map[], d.blocks, {}, {};
    }

    /** bget: the cached buffer of the block, or else the free clean buffer
        released longest ago, recycled.  Either way the caller has a reference to
        it; the lock it has too, unless somebody else holds it. */
    method Bget(dev: nat, blockno: nat) returns (r: Fetch)
      requires Valid() && dev == ROOTDEV && blockno < |disk.blocks|
      modifies buf, this`index, this`held
      ensures Valid()
      ensures r == NoBuffers <==> blockno !in old(index) && !old(CanRecycle())
      ensures r.Waits? <==> blockno in old(index) && old(buf[index[blockno]].locked)
      ensures r == NoBuffers ==> buf[..] == old(buf[..]) && index == old(index) && held == old(held)
      ensures r != NoBuffers ==> r.i < buf.Length && buf[r.i].dev == dev && buf[r.i].blockno == blockno
      ensures r != NoBuffers && blockno in old(index) ==>
                && r.i == old(index[blockno]) && index == old(index)
                && buf[..] == old(buf[..])[r.i := old(buf[..])[r.i].(refcnt := old(buf[..])[r.i].refcnt + 1,
                     locked := true)]
      ensures r != NoBuffers && blockno !in old(index) ==>
                && old(buf[..])[r.i].refcnt == 0 && !old(buf[..])[r.i].dirty
                && (forall j :: 0 <= j < buf.Length && old(buf[j]).refcnt == 0 && !old(buf[j]).dirty ==>
                     stamp[r.i] <= stamp[j])
                && buf[..] == old(buf[..])[r.i := Buf(false, false, dev, blockno, 1, true, old(buf[..])[r.i].data)]
      ensures r != NoBuffers ==> held == old(held) + {blockno}
    {
      hide RingOk, BufsOk, ViewOk;
      var i := FindCached(dev, blockno);
      if blockno in index { IndexAt(buf[..], disk.blocks, index, seen, dirties, held, blockno); }
      if i != buf.Length {
        r := Refer(i);
      } else {
        i := FindVictim();
        if i == buf.Length {
          return NoBuffers;
        }
        ViewRecycles(buf[..], disk.blocks, index, seen, dirties, held, i, blockno);
        index := Reindexed(index, buf[i], blockno, i);
        buf[i] := buf[i].(dev := dev, blockno := blockno, valid := false, dirty := false, refcnt := 1);
        buf[i] := buf[i].(locked := true);
        assert buf[..] == old(buf[..])[i := Buf(false, false, ROOTDEV, blockno, 1, true, old(buf[..])[i].data)];
        r := Taken(i);
        held := held + {blockno};
      }
      assert prev[..] == old(prev[..]) && next[..] == old(next[..]);
    }

    /** b->refcnt++, and acquiresleep as far as it gets. */
    method Refer(i: nat) returns (r: Fetch)
      requires Valid() && i < buf.Length && buf[i].dev == ROOTDEV
      modifies buf, this`held
      ensures Valid() && r == if old(buf[i]).locked then Waits(i) else Taken(i)
      ensures buf[..] == old(buf[..])[i := old(buf[i]).(refcnt := old(buf[i]).refcnt + 1, locked := true)]
      ensures held == old(held) + {buf[i].blockno}
    {
      hide RingOk, BufsOk, ViewOk;
      BufAt(buf[..], disk.blocks, index, seen, dirties, held, i);
      ViewChanges(buf[..], disk.blocks, index, seen, dirties, held,
                  i, buf[i].(refcnt := buf[i].refcnt + 1, locked := true), disk.blocks[buf[i].blockno]);
      r := if buf[i].locked then Waits(i) else Taken(i);
      buf[i] := buf[i].(refcnt := buf[i].refcnt + 1);
      buf[i] := buf[i].(locked := true);
      assert buf[..] == old(buf[..])[i := old(buf[i]).(refcnt := old(buf[i]).refcnt + 1, locked := true)];
      held := held + {buf[i].blockno};
      assert prev[..] == old(prev[..]) && next[..] == old(next[..]);
    }

    /** The rest of acquiresleep for a waiter, once the lock is free. */
    method Acquire(i: nat)
      requires Valid() && i < buf.Length && buf[i].refcnt > 0 && !buf[i].locked
      modifies buf
      ensures Valid() && buf[..] == old(buf[..])[i := old(buf[i]).(locked := true)]
    {
      hide RingOk, BufsOk, ViewOk;
      ReferredTo(i);
      BufAt(buf[..], disk.blocks, index, seen, dirties, held, i);
      ViewChanges(buf[..], disk.blocks, index, seen, dirties, held,
                  i, buf[i].(locked := true), disk.blocks[buf[i].blockno]);
      buf[i] := buf[i].(locked := true);
      assert prev[..] == old(prev[..]) && next[..] == old(next[..]);
    }

    lemma ReferredTo(i: nat)
      requires Valid() && i < buf.Length && buf[i].refcnt > 0
      ensures buf[i].dev == ROOTDEV
    {
      assert BufOk(buf[..][i], i, disk.blocks, index);
    }

    /** The first scan of bget, from the most recently used buffer: the buffer
        of the block, or the head when it is not cached. */
    method FindCached(dev: nat, blockno: nat) returns (i: nat)
      requires Valid() && dev == ROOTDEV
      ensures i == if blockno in index then index[blockno] else buf.Length
      ensures i <= buf.Length && (i < buf.Length ==> buf[i].dev == dev && buf[i].blockno == blockno)
    {
      hide BufsOk, ViewOk;
      if blockno in index {
        IndexAt(buf[..], disk.blocks, index, seen, dirties, held, blockno);
        assert index[blockno] in ring;
      }
      ghost var n := buf.Length;
      ghost var full := Lap(n, ring);
      i := next[buf.Length];
      ghost var k := 0;
      assert full[0] == n && full[n + 1] == n && i == full[1];
      while i != buf.Length
        invariant 0 <= k <= n && i == full[k + 1] && i <= n
        invariant forall j :: 0 <= j < k ==> !(buf[ring[j]].dev == dev && buf[ring[j]].blockno == blockno)
        decreases n - k
      {
        assert i == ring[k] && full[k + 2] == next[i];
        if buf[i].dev == dev && buf[i].blockno == blockno {
          BufAt(buf[..], disk.blocks, index, seen, dirties, held, i);
          return;
        }
        i, k := next[i], k + 1;
      }
    }

    /** The second scan, from the least recently used end; the head when there is
        no victim. */
    method FindVictim() returns (i: nat)
      requires Valid()
      ensures i <= buf.Length && (i < buf.Length <==> CanRecycle())
      ensures i < buf.Length ==> buf[i].refcnt == 0 && !buf[i].dirty
      ensures i < buf.Length ==>
                forall j :: 0 <= j < buf.Length && buf[j].refcnt == 0 && !buf[j].dirty ==> stamp[i] <= stamp[j]
    {
      hide BufsOk, ViewOk;
      ghost var n := buf.Length;
      ghost var full := Lap(n, ring);
      assert full[0] == n && full[n + 1] == n && prev[n] == full[n];
      i := prev[buf.Length];
      ghost var k := n;
      while i != buf.Length
        invariant 0 <= k <= n && i == full[k] && i <= n
        invariant forall j :: k <= j < n ==> !(buf[ring[j]].refcnt == 0 && !buf[ring[j]].dirty)
        decreases k
      {
        assert i == ring[k - 1] && full[k - 1] == prev[i];
        if buf[i].refcnt == 0 && !buf[i].dirty {
          forall j | 0 <= j < n && buf[j].refcnt == 0 && !buf[j].dirty
            ensures stamp[i] <= stamp[j]
          {
            assert j in ring;
          }
          return;
        }
        i, k := prev[i], k - 1;
      }
      forall j: nat | j < n ensures !(buf[j].refcnt == 0 && !buf[j].dirty) { assert j in ring; }
    }

    /** bread: the locked buffer with the contents of the block, or a reference to
        wait on. */
    method Bread(dev: nat, blockno: nat) returns (r: Fetch)
      requires Valid() && dev == ROOTDEV && blockno < |disk.blocks|
      modifies buf, this`index, this`held, disk
      ensures Valid() && disk.blocks == old(disk.blocks) && disk.history == old(disk.history)
      ensures r == NoBuffers <==> blockno !in old(index) && !old(CanRecycle())
      ensures r.Waits? <==> blockno in old(index) && old(buf[index[blockno]].locked)
      ensures r == NoBuffers ==> buf[..] == old(buf[..]) && index == old(index) && held == old(held)
      ensures r != NoBuffers ==> held == old(held) + {blockno} && r.i < buf.Length
                                 && buf[r.i].dev == dev && buf[r.i].blockno == blockno && buf[r.i].locked
                                 && (blockno in old(index) ==> r.i == old(index[blockno]))
                                 && (old(buf[..])[r.i].refcnt > 0 ==> old(buf[..])[r.i].blockno == blockno)
                                 && forall j :: 0 <= j < buf.Length && j != r.i ==> buf[j] == old(buf[j])
      ensures r.Taken? ==> buf[r.i].valid && buf[r.i].data == seen[blockno]
                           && buf[r.i].refcnt == if blockno in old(index) then old(buf[index[blockno]]).refcnt + 1
                                else 1
      ensures r.Waits? ==> buf[r.i] == old(buf[..])[r.i].(refcnt := old(buf[..])[r.i].refcnt + 1)
    {
      hide Valid, RingOk, BufsOk, ViewOk;
      r := Bget(dev, blockno);
      if r.Taken? {
        Load(r.i);
      }
    }

    /** The rest of bread for a waiter. */
    method BreadWoken(i: nat)
      requires Valid() && i < buf.Length && buf[i].refcnt > 0 && !buf[i].locked
      modifies buf, disk
      ensures Valid() && disk.blocks == old(disk.blocks) && disk.history == old(disk.history)
      ensures buf[i].blockno < |seen|
      ensures buf[..] == old(buf[..])[i := old(buf[i]).(locked := true, valid := true, data := buf[i].data)]
      ensures buf[i].data == seen[buf[i].blockno]
    {
      hide Valid, RingOk, BufsOk, ViewOk;
      Acquire(i);
      Load(i);
      Holding(i);
    }

    /** iderw of a buffer without contents. */
    method Load(i: nat)
      requires Valid() && i < buf.Length && buf[i].locked
      modifies buf, disk
      ensures Valid() && disk.blocks == old(disk.blocks) && disk.history == old(disk.history)
      ensures buf[i].blockno < |seen| && buf[i].data == seen[buf[i].blockno]
      ensures buf[..] == old(buf[..])[i := old(buf[i]).(valid := true, data := buf[i].data)]
    {
      hide RingOk, BufsOk, ViewOk;
      ghost var got := buf[..];
      BufAt(got, disk.blocks, index, seen, dirties, held, i);
      if !buf[i].valid {
        ghost var b := buf[i];
        ViewChanges(got, disk.blocks, index, seen, dirties, held,
                    i, b.(valid := true, data := disk.blocks[b.blockno]), disk.blocks[b.blockno]);
        disk.Iderw(buf, i);
        assert buf[..] == got[i := b.(valid := true, data := disk.blocks[b.blockno])];
      }
      assert prev[..] == old(prev[..]) && next[..] == old(next[..]);
    }

    /** A holder of the buffer overwrites its contents: memmove into b->data. */
    method Fill(i: nat, data: Block)
      requires Valid() && i < buf.Length && buf[i].locked && buf[i].valid && |data| == BLOCK_WORDS
      modifies this`seen, buf
      ensures Valid() && buf[..] == old(buf[..])[i := old(buf[i]).(data := data)]
      ensures seen == old(seen)[buf[i].blockno := data]
    {
      hide RingOk, BufsOk, ViewOk;
      BufAt(buf[..], disk.blocks, index, seen, dirties, held, i);
      ViewChanges(buf[..], disk.blocks, index, seen, dirties, held,
                  i, buf[i].(data := data), disk.blocks[buf[i].blockno]);
      buf[i] := buf[i].(data := data);
      seen := seen[buf[i].blockno := data];
    }

    /** b->flags |= B_DIRTY on a held buffer: it can no longer be recycled. */
    method Pin(i: nat)
      requires Valid() && i < buf.Length && buf[i].locked && buf[i].valid
      modifies this`dirties, buf
      ensures Valid() && buf[..] == old(buf[..])[i := old(buf[i]).(dirty := true)]
      ensures dirties == old(dirties) + {buf[i].blockno}
    {
      hide RingOk, BufsOk, ViewOk;
      BufAt(buf[..], disk.blocks, index, seen, dirties, held, i);
      ViewChanges(buf[..], disk.blocks, index, seen, dirties, held,
                  i, buf[i].(dirty := true), disk.blocks[buf[i].blockno]);
      buf[i] := buf[i].(dirty := true);
      dirties := dirties + {buf[i].blockno};
    }

    /** bwrite: the held buffer goes to the disk and is clean. */
    method Bwrite(i: nat)
      requires Valid() && i < buf.Length && buf[i].locked
      modifies this`seen, this`dirties, disk, buf
      ensures Valid() && buf[..] == old(buf[..])[i := old(buf[i]).(valid := true, dirty := false)]
      ensures disk.blocks == old(disk.blocks)[buf[i].blockno := buf[i].data]
      ensures disk.history == old(disk.history) + [disk.blocks]
      ensures seen == old(seen)[buf[i].blockno := buf[i].data] && dirties == old(dirties) - {buf[i].blockno}
    {
      hide RingOk, BufsOk, ViewOk;
      BufAt(buf[..], disk.blocks, index, seen, dirties, held, i);
      ViewChanges(buf[..], disk.blocks, index, seen, dirties, held,
                  i, buf[i].(valid := true, dirty := false), buf[i].data);
      buf[i] := buf[i].(dirty := true);
      disk.Iderw(buf, i);
      seen := seen[buf[i].blockno := buf[i].data];
      dirties := dirties - {buf[i].blockno};
      assert buf[..] == old(buf[..])[i := old(buf[i]).(valid := true, dirty := false)];
      assert prev[..] == old(prev[..]) && next[..] == old(next[..]);
    }

    /** brelse: the last holder moves the buffer to the front of the ring.  A
        buffer whose contents differ from the disk must have been written or
        pinned before. */
    method Brelse(i: nat)
      requires Valid() && i < buf.Length && buf[i].locked && buf[i].valid
      requires buf[i].dirty || buf[i].data == disk.blocks[buf[i].blockno]
      modifies this`ring, this`stamp, this`clock, this`held, buf, prev, next
      ensures Valid()
      ensures buf[..] == old(buf[..])[i := old(buf[i]).(locked := false, refcnt := old(buf[i]).refcnt - 1)]
      ensures held == if buf[i].refcnt == 0 then old(held) - {buf[i].blockno} else old(held)
      ensures buf[i].refcnt > 0 ==> ring == old(ring) && stamp == old(stamp) && clock == old(clock)
      ensures buf[i].refcnt == 0 ==> stamp == old(stamp)[i := old(clock)] && clock == old(clock) + 1 && ring[0] == i
    {
      hide RingOk, BufsOk, ViewOk;
      BufAt(buf[..], disk.blocks, index, seen, dirties, held, i);
      ViewChanges(buf[..], disk.blocks, index, seen, dirties, held,
                  i, buf[i].(locked := false, refcnt := buf[i].refcnt - 1), disk.blocks[buf[i].blockno]);
      buf[i] := buf[i].(locked := false);
      buf[i] := buf[i].(refcnt := buf[i].refcnt - 1);
      assert buf[..] == old(buf[..])[i := old(buf[i]).(locked := false, refcnt := old(buf[i]).refcnt - 1)];
      assert prev[..] == old(prev[..]) && next[..] == old(next[..]);
      if buf[i].refcnt == 0 {
        held := held - {buf[i].blockno};
        ToFront(i);
      }
    }

    /** The list surgery of brelse: b leaves its place and becomes the most
        recently used. */
    method ToFront(b: nat)
      requires prev != next && b < buf.Length == |stamp| && RingOk(prev[..], next[..], ring, stamp, clock)
      modifies this`ring, this`stamp, this`clock, prev, next
      ensures RingOk(prev[..], next[..], ring, stamp, clock)
      ensures stamp == old(stamp)[b := old(clock)] && clock == old(clock) + 1 && ring[0] == b
    {
      ghost var k := MovedFront(prev[..], next[..], ring, stamp, clock, b);
      hide RingOk, Chain;
      ghost var n := buf.Length;
      ghost var rest := ring[..k] + ring[k + 1..];
      ghost var p, x := prev[..], next[..];
      prev[next[b]] := prev[b];
      assert prev[..] == p[x[b] := p[b]];
      next[prev[b]] := next[b];
      assert next[..] == x[p[b] := x[b]];
      p, x := prev[..], next[..];
      next[b] := next[buf.Length];
      assert next[..] == x[b := x[n]];
      prev[b] := buf.Length;
      assert prev[..] == p[b := n];
      prev[next[buf.Length]] := b;
      next[buf.Length] := b;
      ring := [b] + rest;
      stamp := stamp[b := clock];
      clock := clock + 1;
    }
  }
}
