/** The allocator of umalloc.c (Kernighan and Ritchie, The C Programming
    Language, 2nd edition, section 8.7).  Memory is measured in units of one
    Header; an address is a unit number and 0 is the null pointer. */
module Umalloc {
  import opened Params

  datatype Header = Header(ptr: nat, size: nat)

  /** The static Header `base`; everything sbrk returns lies above it. */
  const BASE: nat := 1
  /** morecore never asks sbrk for fewer units. */
  const CHUNK: nat := 4096
  const HEADER_BYTES: nat := 8
  const INT_LIMIT: nat := 0x8000_0000

  /** nunits, with the wrap-around of uint arithmetic. */
  function Units(nbytes: nat): (r: nat)
    ensures r > 0
  {
    ((nbytes + HEADER_BYTES - 1) % UINT) / HEADER_BYTES + 1
  }

  /** The payload covers the request unless rounding up wraps around, which it
      does for the last seven values of uint; and no unit is taken that is not
      needed for it. */
  lemma RequestFits(nbytes: nat)
    requires nbytes < UINT
    ensures (Units(nbytes) - 1) * HEADER_BYTES >= nbytes <==> nbytes <= UINT - HEADER_BYTES
    ensures (Units(nbytes) - 1) * HEADER_BYTES < nbytes + HEADER_BYTES
  {
    if nbytes > UINT - HEADER_BYTES { assert (nbytes + HEADER_BYTES - 1) % UINT < HEADER_BYTES; }
  }

  function Max(a: nat, b: nat): nat {
    if a < b then b else a
  }

  /** The int that reaches sbrk: nu * sizeof(Header) in uint arithmetic, read as
      an int. */
  function SbrkArg(nunits: nat): int {
    var bytes := Max(nunits, CHUNK) * HEADER_BYTES % UINT;
    if bytes < INT_LIMIT then bytes else bytes - UINT
  }

  /** sbrk is asked for the bytes that morecore then links in. */
  predicate Exact(nunits: nat) {
    SbrkArg(nunits) == Max(nunits, CHUNK) * HEADER_BYTES
  }

  lemma ExactIff(nunits: nat)
    ensures Exact(nunits) <==> Max(nunits, CHUNK) * HEADER_BYTES < INT_LIMIT
  {
  }

  /** malloc's arithmetic is right from end to end, rounding and the call of sbrk,
      exactly up to this size. */
  lemma MallocExact(nbytes: nat)
    requires nbytes < UINT
    ensures (Units(nbytes) - 1) * HEADER_BYTES >= nbytes && Exact(Units(nbytes))
            <==> nbytes <= INT_LIMIT - 2 * HEADER_BYTES
  {
    RequestFits(nbytes);
    ExactIff(Units(nbytes));
  }

  /** One byte more and sbrk is asked to shrink the process; seven bytes short of
      the largest size it is asked for nothing. */
  lemma MallocAsks()
    ensures SbrkArg(Units(INT_LIMIT - 2 * HEADER_BYTES + 1)) < 0
    ensures SbrkArg(Units(UINT - HEADER_BYTES)) == 0
  {
    assert Units(UINT - HEADER_BYTES) == UINT / HEADER_BYTES;
    assert Units(INT_LIMIT - 2 * HEADER_BYTES + 1) == INT_LIMIT / HEADER_BYTES;
  }

  // ---- the free list, on values

  datatype Block = Block(addr: nat, size: nat)

  predicate Covers(b: Block, u: nat) {
    b.addr <= u < b.addr + b.size
  }

  /** In address order from base, no two free blocks overlapping.  Neighbours
      touch at most at the junctions i | i + 1 with lo <= i < hi. */
  ghost predicate Ordered(fl: seq<Block>, lo: nat, hi: nat) {
    && |fl| > 0 && fl[0] == Block(BASE, 0)
    && (forall i :: 1 <= i < |fl| ==> fl[i].size > 0 && fl[i].addr > BASE)
    && (forall i, j :: 0 <= i < j < |fl| ==> fl[i].addr + fl[i].size <= fl[j].addr)
    && (forall i, j :: 0 <= i < j < |fl| && fl[i].addr + fl[i].size == fl[j].addr ==> lo <= i < hi && j == i + 1)
  }

  ghost predicate Sorted(fl: seq<Block>) {
    Ordered(fl, 0, 0)
  }

  /** The address behind the last is the first again: one cycle, one wrap. */
  function Succ(fl: seq<Block>, i: nat): nat
    requires i < |fl|
  {
    if i + 1 < |fl| then fl[i + 1].addr else fl[0].addr
  }

  function At(mem: map<nat, Header>, a: nat): Header {
    if a in mem then mem[a] else Header(0, 0)
  }

  /** The headers in memory spell the list out. */
  ghost predicate Spells(mem: map<nat, Header>, fl: seq<Block>) {
    forall i :: 0 <= i < |fl| ==> At(mem, fl[i].addr) == Header(Succ(fl, i), fl[i].size)
  }

  ghost predicate IsFree(fl: seq<Block>, u: nat) {
    exists i :: 0 <= i < |fl| && Covers(fl[i], u)
  }

  ghost predicate IsLive(live: map<nat, nat>, u: nat) {
    exists a :: a in live && Covers(Block(a, live[a]), u)
  }

  ghost predicate Apart(b: Block, c: Block) {
    b.addr + b.size <= c.addr || c.addr + c.size <= b.addr
  }

  /** What sbrk has handed out is free or live, never both, and no two live
      blocks overlap. */
  ghost predicate Partition(fl: seq<Block>, live: map<nat, nat>, obtained: set<nat>) {
    && (forall u: nat :: u in obtained <==> IsFree(fl, u) || IsLive(live, u))
    && (forall u: nat :: !(IsFree(fl, u) && IsLive(live, u)))
    && (forall a :: a in live ==> live[a] > 0 && a > BASE)
    && (forall a, b :: a in live && b in live && a != b ==> Apart(Block(a, live[a]), Block(b, live[b])))
  }

  /** The list with block b put in behind position k. */
  function Insert(fl: seq<Block>, k: nat, b: Block): (r: seq<Block>)
    requires k < |fl|
  {
    fl[..k + 1] + [b] + fl[k + 1..]
  }

  /** Neighbours i and i + 1 become one block if they touch. */
  function Join(fl: seq<Block>, i: nat): (r: seq<Block>) {
    if i + 1 < |fl| && fl[i].addr + fl[i].size == fl[i + 1].addr
    then fl[..i] + [Block(fl[i].addr, fl[i].size + fl[i + 1].size)] + fl[i + 2..]
    else fl
  }

  /** What free does: put the block in, join it upwards, then downwards. */
  function Merge(fl: seq<Block>, k: nat, b: Block): (r: seq<Block>)
    requires k < |fl|
  {
    Join(Join(Insert(fl, k, b), k + 1), k)
  }

  /** b lies strictly between position k and the next. */
  ghost predicate Between(fl: seq<Block>, k: nat, b: Block) {
    && k < |fl| && b.size > 0 && b.addr > BASE
    && fl[k].addr + fl[k].size <= b.addr
    && (k + 1 < |fl| ==> b.addr + b.size <= fl[k + 1].addr)
  }

  lemma InsertOk(fl: seq<Block>, k: nat, b: Block)
    requires Sorted(fl) && Between(fl, k, b)
    ensures Ordered(Insert(fl, k, b), k, k + 2)
  {
    var r := Insert(fl, k, b);
    forall i, j | 0 <= i < j < |r|
      ensures r[i].addr + r[i].size <= r[j].addr
      ensures r[i].addr + r[i].size == r[j].addr ==> k <= i < k + 2 && j == i + 1
    {
      InsertPair(fl, k, b, i, j);
    }
  }

  lemma InsertPair(fl: seq<Block>, k: nat, b: Block, i: nat, j: nat)
    requires Sorted(fl) && Between(fl, k, b) && i < j < |fl| + 1
    ensures var r := Insert(fl, k, b);
            && r[i].addr + r[i].size <= r[j].addr
            && (r[i].addr + r[i].size == r[j].addr ==> k <= i < k + 2 && j == i + 1)
  {
    var r := Insert(fl, k, b);
    var i', j' := if i <= k then i else i - 1, if j <= k then j else j - 1;
    if i == k + 1 {
      assert r[j] == fl[j'] && j' >= k + 1;
    } else if j == k + 1 {
      assert r[i] == fl[i'] && i' <= k;
    } else {
      assert r[i] == fl[i'] && r[j] == fl[j'];
    }
  }

  /** A join keeps every start but one and every end but one. */
  lemma JoinedAt(fl: seq<Block>, i: nat, x: nat)
    requires i + 1 < |fl| && fl[i].addr + fl[i].size == fl[i + 1].addr && x < |fl| - 1
    ensures var r, s, e := Join(fl, i), fl[if x <= i then x else x + 1], fl[if x < i then x else x + 1];
            && |r| == |fl| - 1 && r[x].addr == s.addr && r[x].addr + r[x].size == e.addr + e.size
            && r[x].size >= e.size && (x != i ==> r[x] == e)
  {
  }

  lemma JoinOk(fl: seq<Block>, i: nat, lo: nat)
    requires lo <= i && Ordered(fl, lo, i + 1)
    ensures Ordered(Join(fl, i), lo, i)
  {
    if i + 1 < |fl| && fl[i].addr + fl[i].size == fl[i + 1].addr {
      JoinedAt(fl, i, 0);
      var r := Join(fl, i);
      forall x | 1 <= x < |r|
        ensures r[x].size > 0 && r[x].addr > BASE
      {
        JoinedAt(fl, i, x);
      }
      forall x, y | 0 <= x < y < |r|
        ensures r[x].addr + r[x].size <= r[y].addr
        ensures r[x].addr + r[x].size == r[y].addr ==> lo <= x < i && y == x + 1
      {
        JoinPair(fl, i, lo, x, y);
      }
    }
  }

  lemma JoinPair(fl: seq<Block>, i: nat, lo: nat, x: nat, y: nat)
    requires lo <= i && Ordered(fl, lo, i + 1) && i + 1 < |fl| && fl[i].addr + fl[i].size == fl[i + 1].addr
    requires x < y < |fl| - 1
    ensures var r := Join(fl, i);
            && y < |r| && r[x].addr + r[x].size <= r[y].addr
            && (r[x].addr + r[x].size == r[y].addr ==> lo <= x < i && y == x + 1)
  {
    hide Join;
    JoinedAt(fl, i, x);
    JoinedAt(fl, i, y);
    var x', y' := if x < i then x else x + 1, if y <= i then y else y + 1;
    assert fl[x'].addr + fl[x'].size <= fl[y'].addr;
  }

  lemma MergeSorted(fl: seq<Block>, k: nat, b: Block)
    requires Sorted(fl) && Between(fl, k, b)
    ensures Sorted(Merge(fl, k, b))
  {
    InsertOk(fl, k, b);
    JoinOk(Insert(fl, k, b), k + 1, k);
    JoinOk(Join(Insert(fl, k, b), k + 1), k, k);
  }

  lemma InsertFree(fl: seq<Block>, k: nat, b: Block, u: nat)
    requires k < |fl|
    ensures IsFree(Insert(fl, k, b), u) <==> IsFree(fl, u) || Covers(b, u)
  {
    var r := Insert(fl, k, b);
    if IsFree(fl, u) {
      var i :| 0 <= i < |fl| && Covers(fl[i], u);
      assert Covers(r[if i <= k then i else i + 1], u);
    }
    assert Covers(b, u) ==> Covers(r[k + 1], u);
    if IsFree(r, u) && !Covers(b, u) {
      var j :| 0 <= j < |r| && Covers(r[j], u);
      assert Covers(fl[if j <= k then j else j - 1], u);
    }
  }

  lemma JoinFree(fl: seq<Block>, i: nat, u: nat)
    ensures IsFree(Join(fl, i), u) <==> IsFree(fl, u)
  {
    var r := Join(fl, i);
    if r != fl {
      if IsFree(fl, u) {
        var j :| 0 <= j < |fl| && Covers(fl[j], u);
        assert Covers(r[if j <= i then j else j - 1], u);
      }
      if IsFree(r, u) {
        var j :| 0 <= j < |r| && Covers(r[j], u);
        if j == i {
          assert Covers(fl[i], u) || Covers(fl[i + 1], u);
        } else {
          assert Covers(fl[if j < i then j else j + 1], u);
        }
      }
    }
  }

  /** Freeing adds exactly the units of the block to the free ones. */
  lemma MergeFree(fl: seq<Block>, k: nat, b: Block, u: nat)
    requires k < |fl|
    ensures IsFree(Merge(fl, k, b), u) <==> IsFree(fl, u) || Covers(b, u)
  {
    InsertFree(fl, k, b, u);
    JoinFree(Insert(fl, k, b), k + 1, u);
    JoinFree(Join(Insert(fl, k, b), k + 1), k, u);
  }

  // ---- the partition, step by step

  lemma ApartFrom(fl: seq<Block>, i: nat, live: map<nat, nat>, obtained: set<nat>, a: nat)
    requires Sorted(fl) && Partition(fl, live, obtained) && i < |fl| && a in live
    ensures Apart(Block(a, live[a]), fl[i]) && fl[i].addr != a
  {
    var b := Block(a, live[a]);
    if i > 0 {
      var u := if a < fl[i].addr then fl[i].addr else a;
      if !Apart(b, fl[i]) || fl[i].addr == a {
        assert Covers(fl[i], u) && Covers(b, u);
        assert IsFree(fl, u) && IsLive(live, u);
      }
    }
  }

  lemma LiveApart(fl: seq<Block>, i: nat, live: map<nat, nat>, obtained: set<nat>)
    requires Sorted(fl) && Partition(fl, live, obtained) && i < |fl|
    ensures fl[i].addr !in live && fl[i].addr >= BASE
  {
    if fl[i].addr in live { ApartFrom(fl, i, live, obtained, fl[i].addr); }
  }

  /** No header lies inside a payload. */
  lemma NoHeaderInside(fl: seq<Block>, live: map<nat, nat>, obtained: set<nat>, a: nat, u: nat)
    requires Sorted(fl) && Partition(fl, live, obtained) && a in live && a < u < a + live[a]
    ensures u !in live && forall i :: 0 <= i < |fl| ==> fl[i].addr != u
  {
    assert Covers(Block(a, live[a]), u) && IsLive(live, u);
    forall i | 0 <= i < |fl|
      ensures fl[i].addr != u
    {
      assert !Covers(fl[i], u);
    }
  }

  lemma FreeKeeps(fl: seq<Block>, k: nat, live: map<nat, nat>, obtained: set<nat>, a: nat)
    requires Sorted(fl) && Partition(fl, live, obtained) && a in live && Between(fl, k, Block(a, live[a]))
    ensures Sorted(Merge(fl, k, Block(a, live[a])))
    ensures Partition(Merge(fl, k, Block(a, live[a])), live - {a}, obtained)
  {
    var b := Block(a, live[a]);
    MergeSorted(fl, k, b);
    forall u: nat
      ensures IsFree(Merge(fl, k, b), u) <==> IsFree(fl, u) || Covers(b, u)
      ensures IsLive(live, u) <==> IsLive(live - {a}, u) || Covers(b, u)
      ensures !(IsLive(live - {a}, u) && Covers(b, u))
    {
      MergeFree(fl, k, b, u);
      if IsLive(live, u) {
        var c :| c in live && Covers(Block(c, live[c]), u);
        if c != a { assert c in live - {a}; }
      }
      if IsLive(live - {a}, u) {
        var c :| c in live - {a} && Covers(Block(c, live[c]), u);
        assert Apart(Block(c, live[c]), b);
      }
    }
  }

  /** The list once nunits are taken from block j, from its end if it is larger. */
  function Take(fl: seq<Block>, j: nat, nunits: nat): seq<Block>
    requires j < |fl| && nunits <= fl[j].size
  {
    if fl[j].size == nunits then fl[..j] + fl[j + 1..]
    else fl[j := Block(fl[j].addr, fl[j].size - nunits)]
  }

  function Taken(fl: seq<Block>, j: nat, nunits: nat): Block
    requires j < |fl| && nunits <= fl[j].size
  {
    Block(fl[j].addr + fl[j].size - nunits, nunits)
  }

  lemma TakeFree(fl: seq<Block>, j: nat, n: nat, u: nat)
    requires Sorted(fl) && j < |fl| && 0 < n <= fl[j].size
    ensures IsFree(fl, u) <==> IsFree(Take(fl, j, n), u) || Covers(Taken(fl, j, n), u)
    ensures !(IsFree(Take(fl, j, n), u) && Covers(Taken(fl, j, n), u))
  {
    hide Ordered;
    var r, t := Take(fl, j, n), Taken(fl, j, n);
    var whole := fl[j].size == n;
    if IsFree(fl, u) {
      var i :| 0 <= i < |fl| && Covers(fl[i], u);
      if i != j || !Covers(t, u) { assert Covers(r[if whole && i > j then i - 1 else i], u); }
    }
    assert Covers(t, u) ==> Covers(fl[j], u);
    if IsFree(r, u) {
      var i :| 0 <= i < |r| && Covers(r[i], u);
      var i' := if whole && i >= j then i + 1 else i;
      assert Covers(fl[i'], u);
      if i' < j { OrderedAt(fl, i', j); } else if i' > j { OrderedAt(fl, j, i'); }
    }
  }

  /** Taking a part leaves every block of the list where it is, and the part ends
      where its block ended: no link has to change. */
  lemma TakeStays(fl: seq<Block>, j: nat, n: nat)
    requires j < |fl| && 0 < n < fl[j].size
    ensures |Take(fl, j, n)| == |fl| && Taken(fl, j, n).addr + n == fl[j].addr + fl[j].size
    ensures forall i :: 0 <= i < |fl| ==> Take(fl, j, n)[i].addr == fl[i].addr && Succ(Take(fl, j, n), i) == Succ(fl, i)
  {
  }

  lemma TakeSorted(fl: seq<Block>, j: nat, n: nat)
    requires Sorted(fl) && j < |fl| && 0 < n <= fl[j].size
    ensures Sorted(Take(fl, j, n))
  {
    var r := Take(fl, j, n);
    if fl[j].size == n {
      forall x, y | 0 <= x < y < |r|
        ensures r[x].addr + r[x].size < r[y].addr
      {
        var x', y' := if x < j then x else x + 1, if y < j then y else y + 1;
        assert r[x] == fl[x'] && r[y] == fl[y'] && fl[x'].addr + fl[x'].size < fl[y'].addr;
      }
    }
  }

  lemma TakeKeeps(fl: seq<Block>, j: nat, n: nat, live: map<nat, nat>, obtained: set<nat>)
    requires Sorted(fl) && Partition(fl, live, obtained) && j < |fl| && 0 < n <= fl[j].size
    ensures var t := Taken(fl, j, n);
            && t.addr !in live && Sorted(Take(fl, j, n))
            && Partition(Take(fl, j, n), live[t.addr := n], obtained)
  {
    var t := Taken(fl, j, n);
    assert t.addr !in live by {
      if t.addr in live {
        ApartFrom(fl, j, live, obtained, t.addr);
      }
    }
    TakeSorted(fl, j, n);
    forall u: nat
      ensures IsFree(fl, u) <==> IsFree(Take(fl, j, n), u) || Covers(t, u)
      ensures !(IsFree(Take(fl, j, n), u) && Covers(t, u))
      ensures IsLive(live[t.addr := n], u) <==> IsLive(live, u) || Covers(t, u)
    {
      TakeFree(fl, j, n, u);
      if IsLive(live, u) {
        var c :| c in live && Covers(Block(c, live[c]), u);
        assert c in live[t.addr := n] && live[t.addr := n][c] == live[c];
      }
      if Covers(t, u) { assert t.addr in live[t.addr := n]; }
    }
    forall c | c in live
      ensures Apart(Block(c, live[c]), t)
    {
      ApartFrom(fl, j, live, obtained, c);
    }
  }

  // ---- the headers, step by step

  /** Like Spells, but the pointer at position k is not yet right. */
  ghost predicate SpellsBut(mem: map<nat, Header>, fl: seq<Block>, k: nat) {
    forall i :: 0 <= i < |fl| ==>
      At(mem, fl[i].addr).size == fl[i].size && (i != k ==> At(mem, fl[i].addr).ptr == Succ(fl, i))
  }

  lemma InsertSpells(mem: map<nat, Header>, fl: seq<Block>, k: nat, b: Block)
    requires Spells(mem, fl) && k < |fl| && Ordered(Insert(fl, k, b), k, k + 2)
    ensures SpellsBut(mem[b.addr := Header(Succ(fl, k), b.size)], Insert(fl, k, b), k)
  {
    hide Ordered, Spells, At, Succ;
    var r := Insert(fl, k, b);
    forall i | 0 <= i < |r|
      ensures var m := mem[b.addr := Header(Succ(fl, k), b.size)];
              At(m, r[i].addr).size == r[i].size && (i != k ==> At(m, r[i].addr).ptr == Succ(r, i))
    {
      if i != k + 1 { AddrsDiffer(r, i, k + 1, k, k + 2); }
      InsertSpellsAt(mem, fl, k, b, i);
    }
  }

  lemma InsertSpellsAt(mem: map<nat, Header>, fl: seq<Block>, k: nat, b: Block, i: nat)
    requires Spells(mem, fl) && k < |fl| && i < |Insert(fl, k, b)|
    requires i != k + 1 ==> Insert(fl, k, b)[i].addr != b.addr
    ensures var r, m := Insert(fl, k, b), mem[b.addr := Header(Succ(fl, k), b.size)];
            At(m, r[i].addr).size == r[i].size && (i != k ==> At(m, r[i].addr).ptr == Succ(r, i))
  {
    var r := Insert(fl, k, b);
    if i != k + 1 {
      var i' := if i <= k then i else i - 1;
      assert r[i] == fl[i'];
    }
  }

  lemma AddrsDiffer(fl: seq<Block>, i: nat, j: nat, lo: nat, hi: nat)
    requires Ordered(fl, lo, hi) && i < |fl| && j < |fl| && i != j
    ensures fl[i].addr != fl[j].addr
  {
  }

  lemma JoinedSucc(fl: seq<Block>, i: nat, x: nat)
    requires i + 1 < |fl| && fl[i].addr + fl[i].size == fl[i + 1].addr && x < |fl| - 1
    ensures |Join(fl, i)| == |fl| - 1
    ensures Succ(Join(fl, i), x) == Succ(fl, if x < i then x else x + 1)
  {
    if x + 1 < |fl| - 1 { JoinedAt(fl, i, x + 1); }
    JoinedAt(fl, i, 0);
  }

  lemma JoinSpellsAt(mem: map<nat, Header>, fl: seq<Block>, i: nat, k: nat, x: nat)
    requires SpellsBut(mem, fl, k) && i + 1 < |fl| && (k == i || k + 1 == i) && Ordered(fl, k, i + 1)
    requires fl[i].addr + fl[i].size == fl[i + 1].addr && x < |fl| - 1
    ensures var h := Header(At(mem, fl[i + 1].addr).ptr, fl[i].size + fl[i + 1].size);
            var m, r := mem[fl[i].addr := h], Join(fl, i);
            && |r| == |fl| - 1
            && At(m, r[x].addr).size == r[x].size && (k == i || x != k ==> At(m, r[x].addr).ptr == Succ(r, x))
  {
    hide Join, Ordered, Succ, SpellsBut;
    JoinedAt(fl, i, x);
    JoinedSucc(fl, i, x);
    if x != i {
      AddrsDiffer(fl, i, if x < i then x else x + 1, k, i + 1);
      SpellsButAt(mem, fl, k, if x < i then x else x + 1);
    } else {
      SpellsButAt(mem, fl, k, i + 1);
    }
  }

  lemma SpellsButAt(mem: map<nat, Header>, fl: seq<Block>, k: nat, i: nat)
    requires SpellsBut(mem, fl, k) && i < |fl|
    ensures At(mem, fl[i].addr).size == fl[i].size && (i != k ==> At(mem, fl[i].addr).ptr == Succ(fl, i))
  {
  }

  lemma JoinSpells(mem: map<nat, Header>, fl: seq<Block>, i: nat, k: nat)
    requires SpellsBut(mem, fl, k) && i + 1 < |fl| && (k == i || k + 1 == i) && Ordered(fl, k, i + 1)
    requires fl[i].addr + fl[i].size == fl[i + 1].addr
    ensures var h := Header(At(mem, fl[i + 1].addr).ptr, fl[i].size + fl[i + 1].size);
            var m := mem[fl[i].addr := h];
            if k == i then Spells(m, Join(fl, i)) else SpellsBut(m, Join(fl, i), k)
  {
    JoinSpellsAt(mem, fl, i, k, 0);
    hide Join, Ordered, At, Succ;
    forall x | 0 <= x < |Join(fl, i)|
      ensures var h := Header(At(mem, fl[i + 1].addr).ptr, fl[i].size + fl[i + 1].size);
              var m, r := mem[fl[i].addr := h], Join(fl, i);
              At(m, r[x].addr).size == r[x].size && (k == i || x != k ==> At(m, r[x].addr).ptr == Succ(r, x))
    {
      JoinSpellsAt(mem, fl, i, k, x);
    }
  }

  lemma LinkSpells(mem: map<nat, Header>, fl: seq<Block>, k: nat)
    requires SpellsBut(mem, fl, k) && k + 1 < |fl| && Ordered(fl, k, k + 1)
    ensures Spells(mem[fl[k].addr := Header(fl[k + 1].addr, fl[k].size)], fl)
  {
    var m := mem[fl[k].addr := Header(fl[k + 1].addr, fl[k].size)];
    forall i | 0 <= i < |fl|
      ensures At(m, fl[i].addr) == Header(Succ(fl, i), fl[i].size)
    {
      if i != k { assert fl[i].addr != fl[k].addr; }
    }
  }

  /** The header updates of free, for a block bp behind p. */
  ghost function Freed(mem: map<nat, Header>, p: nat, bp: nat): map<nat, Header> {
    var m := FreedUpMem(mem, p, bp);
    if p + At(m, p).size == bp then m[p := Header(At(m, bp).ptr, At(m, p).size + At(m, bp).size)]
    else m[p := Header(bp, At(m, p).size)]
  }

  lemma FreedSpells(mem: map<nat, Header>, fl: seq<Block>, k: nat, b: Block)
    requires Spells(mem, fl) && Sorted(fl) && Between(fl, k, b) && At(mem, b.addr).size == b.size
    requires fl[k].addr != b.addr
    ensures Spells(Freed(mem, fl[k].addr, b.addr), Merge(fl, k, b))
    ensures k < |Merge(fl, k, b)| && Merge(fl, k, b)[k].addr == fl[k].addr
  {
    SpellsAt(mem, fl, k);
    InsertOk(fl, k, b);
    InsertSpells(mem, fl, k, b);
    var g, m := Insert(fl, k, b), mem[b.addr := Header(Succ(fl, k), b.size)];
    JoinOk(g, k + 1, k);
    var g1, m1 := FreedUp(mem, fl, k, b, g, m);
    FreedDown(mem, fl, k, b, g1, m1);
  }

  lemma FreedUp(mem: map<nat, Header>, fl: seq<Block>, k: nat, b: Block, g: seq<Block>, m: map<nat, Header>)
    returns (g1: seq<Block>, m1: map<nat, Header>)
    requires Spells(mem, fl) && Between(fl, k, b) && Sorted(fl) && At(mem, b.addr).size == b.size
    requires g == Insert(fl, k, b) && m == mem[b.addr := Header(Succ(fl, k), b.size)]
    requires Ordered(g, k, k + 2) && SpellsBut(m, g, k)
    ensures g1 == Join(g, k + 1) && SpellsBut(m1, g1, k) && |g1| > k + 1
    ensures g1[k] == fl[k] && g1[k + 1].addr == b.addr
    ensures k < |fl| && m1 == FreedUpMem(mem, fl[k].addr, b.addr)
  {
    SpellsAt(mem, fl, k);
    g1 := Join(g, k + 1);
    m1 := FreedUpMem(mem, fl[k].addr, b.addr);
    if k + 1 < |fl| && b.addr + b.size == fl[k + 1].addr {
      FreedUpTouching(mem, fl, k, b, g, m);
    } else {
      assert g1 == g && g[k] == fl[k] && g[k + 1] == b;
      assert m1 == m;
    }
  }

  lemma InsertedAt(fl: seq<Block>, k: nat, b: Block)
    requires k < |fl|
    ensures var g := Insert(fl, k, b);
            |g| == |fl| + 1 && g[k] == fl[k] && g[k + 1] == b && (k + 1 < |fl| ==> g[k + 2] == fl[k + 1])
  {
  }

  lemma FreedUpTouching(mem: map<nat, Header>, fl: seq<Block>, k: nat, b: Block, g: seq<Block>, m: map<nat, Header>)
    requires Spells(mem, fl) && At(mem, b.addr).size == b.size
    requires k + 1 < |fl| && b.addr + b.size == fl[k + 1].addr
    requires g == Insert(fl, k, b) && m == mem[b.addr := Header(fl[k + 1].addr, b.size)]
    requires Ordered(g, k, k + 2) && SpellsBut(m, g, k)
    ensures |Join(g, k + 1)| > k + 1 && Join(g, k + 1)[k] == fl[k] && Join(g, k + 1)[k + 1].addr == b.addr
    ensures SpellsBut(FreedUpMem(mem, fl[k].addr, b.addr), Join(g, k + 1), k)
  {
    hide SpellsBut, Join, Ordered, Insert, Spells;
    InsertedAt(fl, k, b);
    SpellsAt(mem, fl, k);
    SpellsAt(mem, fl, k + 1);
    AddrsDiffer(g, k + 1, k + 2, k, k + 2);
    JoinSpells(m, g, k + 1, k);
    JoinedAt(g, k + 1, k);
    JoinedAt(g, k + 1, k + 1);
    var h := Header(At(mem, fl[k + 1].addr).ptr, b.size + fl[k + 1].size);
    assert m[b.addr := h] == mem[b.addr := h];
  }

  /** The first half of Freed: bp takes over its upper neighbour. */
  ghost function FreedUpMem(mem: map<nat, Header>, p: nat, bp: nat): map<nat, Header> {
    var q := At(mem, p).ptr;
    mem[bp := if bp + At(mem, bp).size == q then Header(At(mem, q).ptr, At(mem, bp).size + At(mem, q).size)
              else Header(q, At(mem, bp).size)]
  }

  lemma FreedDown(mem: map<nat, Header>, fl: seq<Block>, k: nat, b: Block, g: seq<Block>, m: map<nat, Header>)
    requires k + 1 < |g| && SpellsBut(m, g, k) && Ordered(g, k, k + 1)
    requires Spells(mem, fl) && k < |fl| && g[k] == fl[k] && g[k + 1].addr == b.addr && fl[k].addr != b.addr
    requires At(mem, b.addr).size == b.size
    requires m == FreedUpMem(mem, fl[k].addr, b.addr)
    ensures Spells(Freed(mem, fl[k].addr, b.addr), Join(g, k)) && k < |Join(g, k)| && Join(g, k)[k].addr == fl[k].addr
  {
    SpellsAt(mem, fl, k);
    assert At(m, b.addr).size == g[k + 1].size;
    if g[k].addr + g[k].size == g[k + 1].addr {
      JoinSpells(m, g, k, k);
    } else {
      LinkSpells(m, g, k);
    }
  }

  /** Everything free relies on. */
  lemma FreeReady(mem: map<nat, Header>, fl: seq<Block>, k: nat, live: map<nat, nat>, obtained: set<nat>, bp: nat)
    requires Spells(mem, fl) && Sorted(fl) && Partition(fl, live, obtained) && bp in live
    requires At(mem, bp).size == live[bp] && Between(fl, k, Block(bp, live[bp]))
    ensures var b := Block(bp, live[bp]);
            && k < |fl| && fl[k].addr !in live && fl[k].addr != bp && fl[k].addr > 0
            && Sorted(Merge(fl, k, b)) && Partition(Merge(fl, k, b), live - {bp}, obtained)
            && Spells(Freed(mem, fl[k].addr, bp), Merge(fl, k, b))
            && k < |Merge(fl, k, b)| && Merge(fl, k, b)[k].addr == fl[k].addr
  {
    FreeKeeps(fl, k, live, obtained, bp);
    LiveApart(fl, k, live, obtained);
    FreedSpells(mem, fl, k, Block(bp, live[bp]));
  }

  // ---- new memory from sbrk

  ghost function Range(lo: nat, n: nat): (r: set<nat>)
    ensures forall u :: u in r <==> lo <= u < lo + n
  {
    if n == 0 then {} else Range(lo, n - 1) + {lo + n - 1}
  }

  lemma GrantKeeps(fl: seq<Block>, live: map<nat, nat>, obtained: set<nat>, a: nat, n: nat)
    requires Partition(fl, live, obtained) && n > 0 && a > BASE && forall u :: u in obtained ==> u < a
    ensures a !in live && Partition(fl, live[a := n], obtained + Range(a, n))
  {
    forall u: nat
      ensures IsLive(live[a := n], u) <==> IsLive(live, u) || Covers(Block(a, n), u)
      ensures IsLive(live, u) || IsFree(fl, u) ==> u < a
    {
      if IsLive(live, u) {
        var c :| c in live && Covers(Block(c, live[c]), u);
        assert c in live[a := n] && Covers(Block(c, live[c]), c);
      }
      if Covers(Block(a, n), u) { assert a in live[a := n]; }
    }
    forall c | c in live
      ensures c + live[c] <= a
    {
      assert Covers(Block(c, live[c]), c + live[c] - 1);
      assert IsLive(live, c + live[c] - 1);
    }
  }

  lemma GrantLast(fl: seq<Block>, live: map<nat, nat>, obtained: set<nat>, k: nat, b: Block)
    requires Sorted(fl) && Partition(fl, live, obtained) && Between(fl, k, b)
    requires forall u :: u in obtained ==> u < b.addr
    ensures k == |fl| - 1
  {
    if k + 1 < |fl| {
      assert Covers(fl[k + 1], fl[k + 1].addr) && IsFree(fl, fl[k + 1].addr);
    }
  }

  /** The merged block at position k has all the new units. */
  lemma MergeSize(fl: seq<Block>, k: nat, b: Block)
    requires k < |fl|
    ensures exists j :: 0 <= j < |Merge(fl, k, b)| && Merge(fl, k, b)[j].size >= b.size
  {
    var g := Insert(fl, k, b);
    assert g[k + 1] == b;
    var g1 := Join(g, k + 1);
    assert |g1| > k + 1 && g1[k + 1].size >= b.size;
    var m := Merge(fl, k, b);
    assert m[if m == g1 then k + 1 else k].size >= b.size;
  }

  // ---- taking a block off the list

  lemma TakeWhole(mem: map<nat, Header>, fl: seq<Block>, j: nat)
    requires Spells(mem, fl) && Sorted(fl) && 0 < j < |fl|
    ensures Spells(mem[fl[j - 1].addr := Header(Succ(fl, j), fl[j - 1].size)], fl[..j] + fl[j + 1..])
  {
    hide Ordered;
    var r := fl[..j] + fl[j + 1..];
    var m := mem[fl[j - 1].addr := Header(Succ(fl, j), fl[j - 1].size)];
    forall i | 0 <= i < |r|
      ensures At(m, r[i].addr) == Header(Succ(r, i), r[i].size)
    {
      var i' := if i < j then i else i + 1;
      if i' != j - 1 { AddrsDiffer(fl, i', j - 1, 0, 0); }
    }
  }

  lemma TakePart(mem: map<nat, Header>, fl: seq<Block>, j: nat, n: nat, h: Header)
    requires Spells(mem, fl) && Sorted(fl) && j < |fl| && 0 < n < fl[j].size
    ensures Spells(mem[fl[j].addr := Header(Succ(fl, j), fl[j].size - n)][fl[j].addr + fl[j].size - n := h],
                   fl[j := Block(fl[j].addr, fl[j].size - n)])
  {
    hide Ordered;
    var r, t := fl[j := Block(fl[j].addr, fl[j].size - n)], fl[j].addr + fl[j].size - n;
    var m := mem[fl[j].addr := Header(Succ(fl, j), fl[j].size - n)];
    forall i | 0 <= i < |r|
      ensures At(m[t := h], r[i].addr) == Header(Succ(r, i), r[i].size)
    {
      if i != j { AddrsDiffer(fl, i, j, 0, 0); }
      if i < j { OrderedAt(fl, i, j); }
      if j < i { OrderedAt(fl, j, i); }
    }
  }

  lemma OrderedAt(fl: seq<Block>, i: nat, j: nat)
    requires Sorted(fl) && i < j < |fl|
    ensures fl[i].addr + fl[i].size < fl[j].addr
  {
  }

  // ---- the next-fit search

  function Next(fl: seq<Block>, i: nat): (r: nat)
    requires i < |fl|
    ensures r < |fl| && Succ(fl, i) == fl[r].addr
  {
    if i + 1 < |fl| then i + 1 else 0
  }

  /** The first of `left` blocks from position i, going round, that has n units. */
  function Search(fl: seq<Block>, i: nat, n: nat, left: nat): (r: Option<nat>)
    requires i < |fl|
    ensures r.Some? ==> r.value < |fl| && fl[r.value].size >= n
    decreases left
  {
    if left == 0 then None
    else if fl[i].size >= n then Some(i)
    else Search(fl, Next(fl, i), n, left - 1)
  }

  /** malloc's search: one whole lap, from behind freep up to freep itself. */
  function Scan(fl: seq<Block>, at: nat, n: nat): (r: Option<nat>)
    requires at < |fl|
    ensures r.Some? ==> r.value < |fl| && fl[r.value].size >= n
  {
    Search(fl, Next(fl, at), n, |fl|)
  }

  /** How many nodes a lap from i has left before it gets to `goal`. */
  function Away(fl: seq<Block>, i: nat, goal: nat): (r: nat)
    requires i < |fl| && goal < |fl|
    ensures r < |fl| && (r == 0 <==> i == goal)
  {
    if i <= goal then goal - i else |fl| - i + goal
  }

  lemma AwayNext(fl: seq<Block>, i: nat, goal: nat)
    requires i < |fl| && goal < |fl|
    ensures i != goal ==> Away(fl, Next(fl, i), goal) == Away(fl, i, goal) - 1
    ensures i == goal ==> Away(fl, Next(fl, i), goal) == |fl| - 1
  {
  }

  /** A lap that finds nothing has looked at every block. */
  lemma {:induction false} SearchMisses(fl: seq<Block>, i: nat, n: nat, left: nat, j: nat)
    requires i < |fl| && j < |fl| && Away(fl, i, j) < left && Search(fl, i, n, left) == None
    ensures fl[j].size < n
    decreases left
  {
    AwayNext(fl, i, j);
    if i != j { SearchMisses(fl, Next(fl, i), n, left - 1, j); }
  }

  /** The block found is the first that fits: every one met before it is too small. */
  lemma {:induction false} SearchFirst(fl: seq<Block>, i: nat, n: nat, left: nat, j: nat)
    requires i < |fl| && j < |fl| && left <= |fl| && Search(fl, i, n, left).Some?
    requires Away(fl, i, j) < Away(fl, i, Search(fl, i, n, left).value)
    ensures fl[j].size < n
    decreases left
  {
    var f := Search(fl, i, n, left).value;
    AwayNext(fl, i, j);
    AwayNext(fl, i, f);
    if i != j { SearchFirst(fl, Next(fl, i), n, left - 1, j); }
  }

  lemma ScanFinds(fl: seq<Block>, at: nat, n: nat, j: nat)
    requires at < |fl| && j < |fl| && fl[j].size >= n
    ensures Scan(fl, at, n).Some?
  {
    if Scan(fl, at, n) == None { SearchMisses(fl, Next(fl, at), n, |fl|, j); }
  }

  /** What sbrk gives when the scan found nothing: the list to scan again. */
  ghost function Grown(fl: seq<Block>, nunits: nat, grant: nat): (r: seq<Block>)
    requires |fl| > 0
  {
    Merge(fl, |fl| - 1, Block(grant, Max(nunits, CHUNK)))
  }

  /** The second lap cannot fail: the new memory is large enough. */
  lemma GrownFinds(fl: seq<Block>, at: nat, nunits: nat, grant: nat)
    requires |fl| > 0 && at < |Grown(fl, nunits, grant)|
    ensures Scan(Grown(fl, nunits, grant), at, nunits).Some?
  {
    var g := Grown(fl, nunits, grant);
    MergeSize(fl, |fl| - 1, Block(grant, Max(nunits, CHUNK)));
    var j :| 0 <= j < |g| && g[j].size >= Max(nunits, CHUNK);
    ScanFinds(g, at, nunits, j);
  }

  // ---- the allocator

  class Heap {
    var mem: map<nat, Header>
    var freep: nat
    /** The first address above everything sbrk has handed out. */
    var brk: nat
    ghost var fl: seq<Block>
    /** The position of freep in the list. */
    ghost var at: nat
    /** The blocks the program holds: header address and size in units. */
    ghost var live: map<nat, nat>
    ghost var obtained: set<nat>
    /** The bytes sbrk has added to the process. */
    ghost var given: int

    /** Every unit on a list or in use is memory of the process. */
    ghost predicate Backed()
      reads this
    {
      given == HEADER_BYTES * |obtained|
    }

    ghost predicate Valid()
      reads this
    {
      && (forall u :: u in obtained ==> BASE < u < brk) && BASE < brk
      && Partition(fl, live, obtained) && Sorted(fl)
      && (forall a :: a in live ==> At(mem, a).size == live[a])
      && (if freep == 0 then fl == [Block(BASE, 0)] && live == map[]
          else Spells(mem, fl) && at < |fl| && fl[at].addr == freep)
    }

    /** The static data before the first call. */
    constructor (top: nat)
      requires top > BASE
      ensures Valid() && Backed() && freep == 0 && live == map[] && obtained == {} && brk == top
    {
      mem, freep, brk := map[], 0, top;
      fl, at, live, obtained, given := [Block(BASE, 0)], 0, map[], {}, 0;
    }

    /** A program may write its own payload units: no header is there. */
    method Store(a: nat, u: nat, h: Header)
      requires Valid() && a in live && a < u < a + live[a]
      modifies this`mem
      ensures Valid()
    {
      hide Ordered, Partition;
      NoHeaderInside(fl, live, obtained, a, u);
      mem := mem[u := h];
    }

    /** The bracketing search of free: the position behind which bp belongs. */
    method FindPlace(bp: nat) returns (p: nat, ghost k: nat)
      requires Valid() && bp in live
      ensures Between(fl, k, Block(bp, live[bp])) && p == fl[k].addr
    {
      hide Partition, Ordered, Between, Spells, Away;
      k := Bracket(fl, live, obtained, bp);
      p := freep;
      ghost var i: nat := at;
      while !(bp > p && bp < At(mem, p).ptr)
        invariant i < |fl| && p == fl[i].addr
        decreases Away(fl, i, k)
      {
        SpellsAt(mem, fl, i);
        BracketTest(fl, k, i, bp);
        if p >= At(mem, p).ptr && (bp > p || bp < At(mem, p).ptr) {
          break;
        }
        AwayNext(fl, i, k);
        p := At(mem, p).ptr;
        i := Next(fl, i);
      }
      SpellsAt(mem, fl, i);
      BracketTest(fl, k, i, bp);
    }

    /** The header updates of free. */
    method LinkIn(p: nat, bp: nat)
      requires p != bp
      modifies this`mem
      ensures mem == Freed(old(mem), p, bp)
      ensures forall x :: x != p && x != bp ==> At(mem, x) == At(old(mem), x)
    {
      var q := At(mem, p).ptr;
      if bp + At(mem, bp).size == q {
        mem := mem[bp := At(mem, bp).(size := At(mem, bp).size + At(mem, q).size)];
        mem := mem[bp := At(mem, bp).(ptr := At(mem, q).ptr)];
      } else {
        mem := mem[bp := At(mem, bp).(ptr := q)];
      }
      if p + At(mem, p).size == bp {
        mem := mem[p := At(mem, p).(size := At(mem, p).size + At(mem, bp).size)];
        mem := mem[p := At(mem, p).(ptr := At(mem, bp).ptr)];
      } else {
        mem := mem[p := At(mem, p).(ptr := bp)];
      }
    }

    /** free: the block joins the list, and its neighbours where it touches them. */
    method Free(ap: nat) returns (ghost k: nat)
      requires Valid() && ap > 0 && ap - 1 in live
      modifies this`mem, this`freep, this`fl, this`at, this`live
      ensures Valid() && freep != 0 && live == old(live) - {ap - 1} && at == k
      ensures Between(old(fl), k, Block(ap - 1, old(live)[ap - 1]))
      ensures fl == Merge(old(fl), k, Block(ap - 1, old(live)[ap - 1]))
    {
      hide Partition, Ordered, Between, Spells, Merge, Freed;
      var bp := ap - 1;
      var p;
      p, k := FindPlace(bp);
      ghost var b := Block(bp, live[bp]);
      FreeReady(mem, fl, k, live, obtained, bp);
      LinkIn(p, bp);
      freep := p;
      fl, at, live := Merge(fl, k, b), k, live - {bp};
    }

    /** The memory sbrk has answered with gets a header and counts as in use. */
    method Obtain(hp: nat, nu: nat)
      requires Valid() && freep != 0 && nu > 0 && hp >= brk
      modifies this`mem, this`brk, this`live, this`obtained
      ensures Valid() && hp !in old(live) && live == old(live)[hp := nu] && brk == hp + nu
      ensures obtained == old(obtained) + Range(hp, nu) && |obtained| == |old(obtained)| + nu
    {
      hide Partition, Ordered, Spells, Range;
      GrantKeeps(fl, live, obtained, hp, nu);
      SpellsOff(mem, fl, live, obtained, hp, Header(At(mem, hp).ptr, nu));
      RangeNew(obtained, hp, nu);
      RangeBelow(hp, nu);
      mem := mem[hp := At(mem, hp).(size := nu)];
      brk := hp + nu;
      live, obtained := live[hp := nu], obtained + Range(hp, nu);
    }

    /** morecore: ask sbrk for at least CHUNK units and free them into the list.
        `grant` is what sbrk would answer. */
    method Morecore(nunits: nat, grant: Option<nat>) returns (r: nat)
      requires Valid() && freep != 0 && nunits > 0
      requires grant.Some? ==> grant.value >= brk
      modifies this
      ensures Valid() && freep != 0 && live == old(live) && (r == 0 <==> grant.None?)
      ensures grant.None? ==>
                fl == old(fl) && at == old(at) && freep == old(freep) && obtained == old(obtained) && mem == old(mem)
      ensures grant.Some? ==>
                && r == freep && at == |old(fl)| - 1
                && obtained == old(obtained) + Range(grant.value, Max(nunits, CHUNK))
                && fl == Grown(old(fl), nunits, grant.value)
      ensures given == old(given) + (if grant.Some? then SbrkArg(nunits) else 0)
      ensures |obtained| == |old(obtained)| + (if grant.Some? then Max(nunits, CHUNK) else 0)
    {
      hide Partition, Ordered, Spells, Merge, Between, SbrkArg, Range;
      var nu := if nunits < CHUNK then CHUNK else nunits;
      if grant.None? {
        return 0;
      }
      var hp := grant.value;
      Obtain(hp, nu);
      given := given + SbrkArg(nunits);
      ghost var k := Free(hp + 1);
      GrantLast(old(fl), old(live), old(obtained), k, Block(hp, nu));
      r := freep;
    }

    /** Take nunits off block p, whose predecessor is prevp: the whole block or
        its upper end. */
    method Carve(prevp: nat, p: nat, nunits: nat, ghost j: nat) returns (r: nat)
      requires Valid() && freep != 0 && 0 < j < |fl| && 0 < nunits <= fl[j].size
      requires p == fl[j].addr && prevp == fl[j - 1].addr
      modifies this`mem, this`freep, this`fl, this`at, this`live
      ensures Valid() && freep != 0 && at == j - 1
      ensures fl == Take(old(fl), j, nunits) && r == Taken(old(fl), j, nunits).addr
      ensures r !in old(live) && live == old(live)[r := nunits]
    {
      hide Partition, Ordered, Spells;
      TakeKeeps(fl, j, nunits, live, obtained);
      SpellsAt(mem, fl, j);
      SpellsAt(mem, fl, j - 1);
      LiveApart(fl, j - 1, live, obtained);
      LiveApart(fl, j, live, obtained);
      ghost var t := Taken(fl, j, nunits).addr;
      if At(mem, p).size == nunits {
        TakeWhole(mem, fl, j);
        mem := mem[prevp := At(mem, prevp).(ptr := At(mem, p).ptr)];
        r := p;
      } else {
        TakePart(mem, fl, j, nunits, Header(At(mem, t).ptr, nunits));
        mem := mem[p := At(mem, p).(size := At(mem, p).size - nunits)];
        r := p + At(mem, p).size;
        mem := mem[r := At(mem, r).(size := nunits)];
      }
      freep := prevp;
      fl, at, live := Take(fl, j, nunits), j - 1, live[t := nunits];
    }

    /** The first call links base to itself. */
    method InitBase()
      requires Valid() && freep == 0
      modifies this`mem, this`freep, this`at
      ensures Valid() && freep == BASE && at == 0
    {
      SpellsBase(mem);
      mem := mem[BASE := At(mem, BASE).(ptr := BASE)];
      freep := BASE;
      mem := mem[BASE := At(mem, BASE).(size := 0)];
      assert mem == old(mem)[BASE := Header(BASE, 0)];
      at := 0;
    }

    /** One lap of the loop in malloc, from behind freep until a block fits or p
        is freep again. */
    method Lap(nunits: nat) returns (found: bool, prevp: nat, p: nat)
      requires Valid() && freep != 0 && nunits > 0
      ensures at < |fl| && (found <==> Scan(fl, at, nunits).Some?)
      ensures found ==> var j := Scan(fl, at, nunits).value; 0 < j < |fl| && p == fl[j].addr && prevp == fl[j - 1].addr
      ensures !found ==> p == freep
    {
      hide Valid, Partition, Away, Search, Scan;
      FirstNode();
      Node(at);
      prevp := freep;
      p := At(mem, prevp).ptr;
      ghost var h: nat, i: nat, left: nat := at, Next(fl, at), |fl|;
      AwayNext(fl, at, at);
      ScanStarts(fl, at, nunits);
      while true
        invariant i < |fl| && p == fl[i].addr && h < |fl| && i == Next(fl, h) && prevp == fl[h].addr
        invariant left == Away(fl, i, at) + 1 && Scan(fl, at, nunits) == Search(fl, i, nunits, left)
        decreases left
      {
        Node(i);
        SearchStep(fl, i, nunits, left);
        AwayNext(fl, i, at);
        if At(mem, p).size >= nunits {
          return true, prevp, p;
        }
        if p == freep {
          ScanStarts(fl, at, nunits);
          return false, prevp, p;
        }
        prevp := p;
        p := At(mem, p).ptr;
        h, i, left := i, Next(fl, i), left - 1;
      }
    }

    /** malloc.  When a lap comes back to freep it calls morecore, once: the next
        lap then finds a block. First fit from behind freep, each time. */
    method Malloc(nbytes: nat, grant: Option<nat>) returns (ap: nat)
      requires Valid() && (grant.Some? ==> grant.value >= brk)
      modifies this
      ensures Valid() && freep != 0 && |old(fl)| > 0 && (old(freep) != 0 ==> old(at) < |old(fl)|)
      ensures var n, f, g := Units(nbytes), (if old(freep) == 0 then 0 else old(at)), old(fl);
              var asked := Scan(g, f, n) == None;
              && (ap == 0 <==> asked && grant == None)
              && obtained == (if asked && grant.Some? then old(obtained) + Range(grant.value, Max(n, CHUNK))
                   else old(obtained))
              && (ap == 0 ==> fl == g && at == f && live == old(live))
              && (ap != 0 && !asked ==> Served(g, f, n, ap))
              && (ap != 0 && asked ==>
                    |g| - 1 < |Grown(g, n, grant.value)| && Served(Grown(g, n, grant.value), |g| - 1, n, ap))
              && (ap != 0 ==> ap - 1 !in old(live) && live == old(live)[ap - 1 := n])
              && (old(Backed()) ==> (Backed() <==> (asked && grant.Some? ==> Exact(n))))
    {
      hide Valid, Partition, Grown, Away, Search, Units, Take, Range, Max, SbrkArg, Scan;
      var nunits := Units(nbytes);
      FirstNode();
      if freep == 0 {
        InitBase();
      }
      FirstNode();
      ghost var g, f, asked := fl, at, false;
      while true
        invariant Valid() && freep != 0 && live == old(live) && f < |g|
        invariant !asked ==> fl == g && at == f && obtained == old(obtained) && given == old(given) && brk == old(brk)
        invariant asked ==> given == old(given) + SbrkArg(nunits) && |obtained| == |old(obtained)| + Max(nunits, CHUNK)
        invariant asked ==> Regrown(g, f, nunits, grant)
        invariant asked ==> obtained == old(obtained) + Range(grant.value, Max(nunits, CHUNK))
        decreases !asked
      {
        var found, prevp, p := Lap(nunits);
        if found {
          var r := Carve(prevp, p, nunits, Scan(fl, at, nunits).value);
          return r + 1;
        }
        p := Morecore(nunits, grant);
        if p == 0 {
          return 0;
        }
        FirstNode();
        GrownFinds(g, at, nunits, grant.value);
        asked := true;
      }
    }

    lemma FirstNode()
      requires Valid()
      ensures |fl| > 0 && (freep == 0 ==> fl == [Block(BASE, 0)]) && (freep != 0 ==> at < |fl|)
    {
    }

    /** What the headers say at a node of the list. */
    lemma Node(i: nat)
      requires Valid() && freep != 0 && i < |fl|
      ensures at < |fl| && freep == fl[at].addr && (fl[i].addr == freep <==> i == at)
      ensures At(mem, fl[i].addr).size == fl[i].size && At(mem, fl[i].addr).ptr == fl[Next(fl, i)].addr
      ensures fl[i].addr > 0 && (fl[i].size > 0 ==> i > 0)
    {
      hide Partition, Ordered, Spells;
      SpellsAt(mem, fl, i);
      ListFacts(fl, i);
      if fl[i].addr == freep { SameAddr(fl, i, at); }
    }

    /** The list after the one call of morecore. */
    ghost predicate Regrown(g: seq<Block>, f: nat, n: nat, grant: Option<nat>)
      reads this
      requires f < |g|
    {
      && grant.Some? && Scan(g, f, n) == None && at == |g| - 1
      && fl == Grown(g, n, grant.value) && at < |fl| && Scan(fl, at, n).Some?
    }

    /** The request was met from the first block of the lap that fits. */
    ghost predicate Served(g: seq<Block>, f: nat, n: nat, ap: nat)
      reads this
      requires f < |g|
    {
      && Scan(g, f, n).Some? && ap > 0
      && var j := Scan(g, f, n).value;
         fl == Take(g, j, n) && ap == Taken(g, j, n).addr + 1 && at == j - 1
    }
  }

  lemma ListFacts(fl: seq<Block>, i: nat)
    requires Sorted(fl) && i < |fl|
    ensures fl[0] == Block(BASE, 0) && fl[i].addr >= BASE && (i > 0 ==> fl[i].size > 0)
  {
  }

  lemma SameAddr(fl: seq<Block>, i: nat, j: nat)
    requires Sorted(fl) && i < |fl| && j < |fl| && fl[i].addr == fl[j].addr
    ensures i == j
  {
    if i != j { AddrsDiffer(fl, i, j, 0, 0); }
  }

  lemma SpellsBase(mem: map<nat, Header>)
    ensures Spells(mem[BASE := Header(BASE, 0)], [Block(BASE, 0)])
  {
  }

  lemma ScanStarts(fl: seq<Block>, at: nat, n: nat)
    requires at < |fl|
    ensures Scan(fl, at, n) == Search(fl, Next(fl, at), n, |fl|)
    ensures Away(fl, at, at) == 0
  {
  }

  lemma SearchStep(fl: seq<Block>, i: nat, n: nat, left: nat)
    requires i < |fl| && left > 0
    ensures Search(fl, i, n, left) == if fl[i].size >= n then Some(i) else Search(fl, Next(fl, i), n, left - 1)
    ensures left == 1 && fl[i].size < n ==> Search(fl, i, n, left) == None
  {
  }

  /** Writing outside everything obtained leaves the list alone. */
  lemma SpellsOff(mem: map<nat, Header>, fl: seq<Block>, live: map<nat, nat>, obtained: set<nat>, a: nat, h: Header)
    requires Spells(mem, fl) && Sorted(fl) && Partition(fl, live, obtained)
    requires a > BASE && forall u :: u in obtained ==> u < a
    ensures Spells(mem[a := h], fl)
  {
    forall i | 0 <= i < |fl|
      ensures fl[i].addr != a
    {
      if i > 0 { assert Covers(fl[i], fl[i].addr) && IsFree(fl, fl[i].addr); }
    }
  }

  lemma SpellsAt(mem: map<nat, Header>, fl: seq<Block>, i: nat)
    requires Spells(mem, fl) && i < |fl|
    ensures At(mem, fl[i].addr) == Header(Succ(fl, i), fl[i].size)
  {
  }

  lemma Bracket(fl: seq<Block>, live: map<nat, nat>, obtained: set<nat>, bp: nat) returns (k: nat)
    requires Sorted(fl) && Partition(fl, live, obtained) && bp in live
    ensures Between(fl, k, Block(bp, live[bp])) && k < |fl| && fl[k].addr < bp && bp > BASE
    ensures forall i :: 0 <= i < |fl| ==> fl[i].addr != bp && (i <= k <==> fl[i].addr < bp)
  {
    forall i | 0 <= i < |fl|
      ensures fl[i].addr != bp && Apart(Block(bp, live[bp]), fl[i])
    {
      ApartFrom(fl, i, live, obtained, bp);
    }
    k := 0;
    while k + 1 < |fl| && fl[k + 1].addr < bp
      invariant k < |fl| && fl[k].addr < bp
    {
      k := k + 1;
    }
  }

  /** The two tests of the search loop hold at the bracketing node and nowhere else. */
  lemma BracketTest(fl: seq<Block>, k: nat, i: nat, bp: nat)
    requires Sorted(fl) && k < |fl| && i < |fl| && bp > BASE
    requires forall i :: 0 <= i < |fl| ==> fl[i].addr != bp && (i <= k <==> fl[i].addr < bp)
    ensures var p, q := fl[i].addr, Succ(fl, i);
            ((bp > p && bp < q) || (p >= q && (bp > p || bp < q))) <==> i == k
  {
    if i + 1 < |fl| { assert fl[i].addr < fl[i + 1].addr; }
  }

  // ---- the list is canonical, and units are conserved

  lemma LastFree(fl: seq<Block>, u: nat)
    requires Sorted(fl) && IsFree(fl, u)
    ensures u < fl[|fl| - 1].addr + fl[|fl| - 1].size
  {
    var m := |fl| - 1;
    var i :| 0 <= i < |fl| && Covers(fl[i], u);
    if i < m { OrderedAt(fl, i, m); }
  }

  lemma InitFree(fl: seq<Block>, u: nat)
    requires Sorted(fl) && |fl| > 1
    ensures Sorted(fl[..|fl| - 1])
    ensures IsFree(fl[..|fl| - 1], u) <==> IsFree(fl, u) && !Covers(fl[|fl| - 1], u)
  {
    var m := |fl| - 1;
    if IsFree(fl[..m], u) {
      var i :| 0 <= i < m && Covers(fl[..m][i], u);
      assert Covers(fl[i], u);
      OrderedAt(fl, i, m);
    }
    if IsFree(fl, u) && !Covers(fl[m], u) {
      var i :| 0 <= i < |fl| && Covers(fl[i], u);
      assert Covers(fl[..m][i], u);
    }
  }

  /** The unit before a free block is not free: blocks never touch. */
  lemma GapBelow(fl: seq<Block>, i: nat)
    requires Sorted(fl) && 0 < i < |fl|
    ensures fl[i].addr > BASE && !IsFree(fl, fl[i].addr - 1)
  {
  }

  lemma SameLast(f: seq<Block>, g: seq<Block>)
    requires Sorted(f) && Sorted(g) && |f| > 1 && |g| > 1
    requires forall u: nat :: IsFree(f, u) <==> IsFree(g, u)
    ensures f[|f| - 1] == g[|g| - 1]
  {
    SameLastHalf(f, g);
    SameLastHalf(g, f);
  }

  lemma SameLastHalf(f: seq<Block>, g: seq<Block>)
    requires Sorted(f) && Sorted(g) && |f| > 1 && |g| > 1
    requires forall u: nat :: IsFree(f, u) <==> IsFree(g, u)
    ensures var (x, y) := (f[|f| - 1], g[|g| - 1]);
            x.addr + x.size <= y.addr + y.size && (x.addr + x.size == y.addr + y.size ==> y.addr <= x.addr)
  {
    var (x, y) := (f[|f| - 1], g[|g| - 1]);
    ListFacts(f, |f| - 1);
    ListFacts(g, |g| - 1);
    assert Covers(x, x.addr + x.size - 1) && IsFree(f, x.addr + x.size - 1);
    LastFree(g, x.addr + x.size - 1);
    GapBelow(g, |g| - 1);
  }

  /** The set of free units determines the list: in address order and fully
      coalesced there is only one. */
  lemma {:induction false} Canonical(f: seq<Block>, g: seq<Block>)
    requires Sorted(f) && Sorted(g) && forall u: nat :: IsFree(f, u) <==> IsFree(g, u)
    ensures f == g
    decreases |f|
  {
    ListFacts(f, |f| - 1);
    ListFacts(g, |g| - 1);
    if |f| == 1 {
      OnlyBase(f, g);
    } else if |g| == 1 {
      OnlyBase(g, f);
    } else {
      SameLast(f, g);
      var f', g' := f[..|f| - 1], g[..|g| - 1];
      forall u: nat
        ensures IsFree(f', u) <==> IsFree(g', u)
      {
        InitFree(f, u);
        InitFree(g, u);
      }
      InitFree(f, 0);
      InitFree(g, 0);
      Canonical(f', g');
    }
  }

  lemma OnlyBase(f: seq<Block>, g: seq<Block>)
    requires Sorted(f) && Sorted(g) && |f| == 1 && forall u: nat :: IsFree(f, u) <==> IsFree(g, u)
    ensures g == f
  {
    ListFacts(f, 0);
    ListFacts(g, 0);
    assert |g| > 1 ==> Covers(g[1], g[1].addr);
    assert |g| > 1 ==> IsFree(g, g[1].addr);
  }

  /** Freeing the block that was just taken gives the list back as it was,
      wherever in it the block came from. */
  lemma FreeUndoesTake(fl: seq<Block>, j: nat, n: nat, k: nat)
    requires Sorted(fl) && j < |fl| && 0 < n <= fl[j].size
    requires k < |Take(fl, j, n)| && Between(Take(fl, j, n), k, Taken(fl, j, n))
    ensures Merge(Take(fl, j, n), k, Taken(fl, j, n)) == fl
  {
    var r, t := Take(fl, j, n), Taken(fl, j, n);
    TakeSorted(fl, j, n);
    MergeSorted(r, k, t);
    forall u: nat
      ensures IsFree(Merge(r, k, t), u) <==> IsFree(fl, u)
    {
      MergeFree(r, k, t, u);
      TakeFree(fl, j, n, u);
    }
    Canonical(Merge(r, k, t), fl);
  }

  ghost function FreeTotal(fl: seq<Block>): nat {
    if fl == [] then 0 else FreeTotal(fl[..|fl| - 1]) + fl[|fl| - 1].size
  }

  ghost function LiveTotal(live: map<nat, nat>): nat
    decreases |live.Keys|
  {
    if live.Keys == {} then 0
    else
      var a := AnyOf(live.Keys);
      assert (live - {a}).Keys == live.Keys - {a};
      live[a] + LiveTotal(live - {a})
  }

  ghost function AnyOf(s: set<nat>): (a: nat)
    requires s != {}
    ensures a in s
  {
    var a :| a in s; a
  }

  lemma {:induction false} RangeSize(lo: nat, n: nat)
    ensures |Range(lo, n)| == n
  {
    if n > 0 {
      RangeSize(lo, n - 1);
      assert Range(lo, n) == Range(lo, n - 1) + {lo + n - 1};
    }
  }

  lemma Without(s: set<nat>, lo: nat, n: nat)
    requires Range(lo, n) <= s
    ensures |s| == |s - Range(lo, n)| + n
  {
    RangeSize(lo, n);
    assert s == (s - Range(lo, n)) + Range(lo, n);
  }

  lemma RangeNew(s: set<nat>, lo: nat, n: nat)
    requires forall u :: u in s ==> u < lo
    ensures |s + Range(lo, n)| == |s| + n
  {
    RangeSize(lo, n);
    assert s !! Range(lo, n);
  }

  lemma RangeBelow(lo: nat, n: nat)
    ensures forall u :: u in Range(lo, n) ==> lo <= u < lo + n
  {
  }

  /** Free units and live units add up to the units obtained from sbrk. */
  lemma {:induction false} UnitsConserved(fl: seq<Block>, live: map<nat, nat>, obtained: set<nat>)
    requires Sorted(fl) && Partition(fl, live, obtained)
    ensures FreeTotal(fl) + LiveTotal(live) == |obtained|
    decreases |fl|, |live.Keys|
  {
    var m := |fl| - 1;
    if m > 0 {
      FreeWithout(fl, live, obtained);
      UnitsConserved(fl[..m], live, obtained - Range(fl[m].addr, fl[m].size));
    } else if live.Keys != {} {
      var a := AnyOf(live.Keys);
      LiveWithout(live, a, fl, obtained);
      UnitsConserved(fl, live - {a}, obtained - Range(a, live[a]));
    } else {
      assert FreeTotal(fl) == 0 by { assert fl[..0] == []; }
      assert forall u: nat :: !IsFree(fl, u) && !IsLive(live, u);
      assert obtained == {};
    }
  }

  lemma LiveWithout(live: map<nat, nat>, a: nat, fl: seq<Block>, obtained: set<nat>)
    requires Partition(fl, live, obtained) && a in live
    ensures Partition(fl, live - {a}, obtained - Range(a, live[a]))
    ensures |obtained| == |obtained - Range(a, live[a])| + live[a]
    ensures (live - {a}).Keys == live.Keys - {a}
  {
    hide IsFree, IsLive, Apart;
    var b := Block(a, live[a]);
    forall u: nat
      ensures IsLive(live - {a}, u) <==> IsLive(live, u) && !Covers(b, u)
      ensures Covers(b, u) ==> IsLive(live, u)
    {
      LiveMinus(live, a, u);
    }
    forall u | u in Range(a, live[a]) ensures u in obtained { assert Covers(b, u); }
    Without(obtained, a, live[a]);
  }

  lemma LiveMinus(live: map<nat, nat>, a: nat, u: nat)
    requires a in live
    requires forall c :: c in live && c != a ==> Apart(Block(c, live[c]), Block(a, live[a]))
    ensures IsLive(live - {a}, u) <==> IsLive(live, u) && !Covers(Block(a, live[a]), u)
    ensures Covers(Block(a, live[a]), u) ==> IsLive(live, u)
  {
    if IsLive(live, u) && !Covers(Block(a, live[a]), u) {
      var c :| c in live && Covers(Block(c, live[c]), u);
      assert c in live - {a};
    }
    if IsLive(live - {a}, u) {
      var c :| c in live - {a} && Covers(Block(c, live[c]), u);
      assert Apart(Block(c, live[c]), Block(a, live[a]));
    }
  }

  lemma FreeWithout(fl: seq<Block>, live: map<nat, nat>, obtained: set<nat>)
    requires Sorted(fl) && |fl| > 1 && Partition(fl, live, obtained)
    ensures var b, init := fl[|fl| - 1], fl[..|fl| - 1];
            && Sorted(init) && Partition(init, live, obtained - Range(b.addr, b.size))
            && |obtained| == |obtained - Range(b.addr, b.size)| + b.size
  {
    hide Ordered, IsFree, IsLive, Apart;
    var b, init := fl[|fl| - 1], fl[..|fl| - 1];
    InitFree(fl, 0);
    forall u: nat
      ensures IsFree(init, u) <==> IsFree(fl, u) && !Covers(b, u)
      ensures Covers(b, u) ==> IsFree(fl, u)
    {
      InitFree(fl, u);
      CoveredByLast(fl, u);
    }
    forall u | u in Range(b.addr, b.size) ensures u in obtained { assert Covers(b, u); }
    Without(obtained, b.addr, b.size);
  }

  lemma CoveredByLast(fl: seq<Block>, u: nat)
    requires |fl| > 0
    ensures Covers(fl[|fl| - 1], u) ==> IsFree(fl, u)
  {
  }
}
