/** Shared memory pages: frames the kernel holds, mapped below KERNBASE in every
    process that asks for them, with a count of the processes that have each. */
module Shmem {
  import opened FrameCounts
  import opened PageTables
  import opened Params
  import opened Vm
  import Kalloc

  const NSHAREPAGE: nat := 4
  /** Where the shared pages begin, in pages; user memory ends there. */
  const LIMIT: nat := KERNPAGE - NSHAREPAGE
  const KERNBASE: nat := KERNPAGE * PGSIZE

  datatype Phase = Unused | Live | Zombie

  /** A process: its page directory, its size, and for each shared page the
      virtual page it has it at, or 0. */
  datatype Proc = Proc(phase: Phase, pgdir: nat, sz: nat, shared: seq<nat>)

  /** The virtual page of shared page i. */
  function Place(i: nat): nat
    requires i < NSHAREPAGE
  {
    KERNPAGE - (i + 1)
  }

  /** V2P in unsigned arithmetic. */
  function V2P(a: nat): nat {
    (a - KERNBASE) % UINT
  }

  /** The size check in shmem_access compares with V2P of an address below
      KERNBASE, which wraps: it rejects no size a process can have, where a
      comparison with the address itself would reject those that overlap. */
  lemma CheckNeverRejects(i: nat, sz: nat)
    requires i < NSHAREPAGE && sz < KERNBASE
    ensures !(sz > V2P(Place(i) * PGSIZE))
    ensures sz > Place(i) * PGSIZE <==> sz > KERNBASE - (i + 1) * PGSIZE
  {
    var a := Place(i) * PGSIZE;
    assert a - KERNBASE == -(i + 1) * PGSIZE;
    assert (a - KERNBASE) % UINT == a - KERNBASE + UINT;
  }

  // ---- the processes that have a page

  ghost predicate Wide(ps: seq<Proc>) {
    forall k :: 0 <= k < |ps| ==> |ps[k].shared| == NSHAREPAGE
  }

  lemma WideAt(ps: seq<Proc>, k: nat)
    requires Wide(ps) && k < |ps|
    ensures |ps[k].shared| == NSHAREPAGE
  {
  }

  lemma WideSet(ps: seq<Proc>, k: nat, p: Proc)
    requires Wide(ps) && k < |ps| && |p.shared| == NSHAREPAGE
    ensures Wide(ps[k := p])
  {
  }

  ghost function Users(ps: seq<Proc>, i: nat): (r: set<nat>)
    requires Wide(ps)
    requires i < NSHAREPAGE
    ensures forall k :: k in r <==> 0 <= k < |ps| && ps[k].shared[i] != 0
  {
    set k | 0 <= k < |ps| && ps[k].shared[i] != 0
  }

  lemma UsersSet(ps: seq<Proc>, k: nat, p: Proc, i: nat)
    requires Wide(ps)
    requires k < |ps| && |p.shared| == NSHAREPAGE && i < NSHAREPAGE
    ensures |Users(ps[k := p], i)| ==
            |Users(ps, i)| - (if ps[k].shared[i] != 0 then 1 else 0) + (if p.shared[i] != 0 then 1 else 0)
  {
    var rest := Users(ps, i) - {k};
    assert Users(ps[k := p], i) == if p.shared[i] != 0 then rest + {k} else rest;
    assert Users(ps, i) == if ps[k].shared[i] != 0 then rest + {k} else rest;
  }

  ghost predicate HasShared(shared: seq<nat>) {
    exists i :: 0 <= i < |shared| && shared[i] != 0
  }

  /** The directory entry all shared pages come under. */
  const SHAREDIR: nat := 511

  lemma PlaceDir(i: nat)
    requires i < NSHAREPAGE
    ensures Pdx(Place(i)) == SHAREDIR < N
  {
  }

  lemma SameDir(s: Store, d: nat, i: nat, j: nat)
    requires Shaped(s) && d in s.spaces && i < NSHAREPAGE && j < NSHAREPAGE
    ensures HasTable(s, d, Place(i)) <==> HasTable(s, d, Place(j))
  {
    PlaceDir(i);
    PlaceDir(j);
  }

  /** A process needs the table of the shared pages for its own pages exactly if
      it reaches up to the first page that comes under it. */
  lemma PlaceNeeded(km: seq<Kmap>, lo: nat, n: nat)
    requires KmapOk(km) && lo <= SHAREDIR * N && n <= KERNPAGE
    ensures SHAREDIR in NeedDirs(km, lo, n) <==> n > SHAREDIR * N
  {
    if n > SHAREDIR * N {
      assert Pdx(SHAREDIR * N) == SHAREDIR && lo <= SHAREDIR * N < n;
      assert Needs(km, lo, n, SHAREDIR);
    }
    if Needs(km, lo, n, SHAREDIR) {
      var w :| 0 <= w && Pdx(w) == SHAREDIR && (InKernel(km, |km|, w) || lo <= w < n);
      assert w < KERNPAGE;
    }
  }

  lemma PlaceTable(s: Store, km: seq<Kmap>, d: nat, lo: nat, n: nat)
    requires Shaped(s) && d in s.spaces && Exactly(s, km, d, lo, n) && KmapOk(km) && lo <= SHAREDIR * N && n <= KERNPAGE
    ensures HasTable(s, d, Place(0)) <==> n > SHAREDIR * N
  {
    hide Exactly, KmapOk;
    ExactDirs(s, km, d, lo, n);
    PlaceDir(0);
    NoDir(s, d, Place(0));
    PlaceNeeded(km, lo, n);
  }

  /** A fork of p with so many free frames fails while it maps the shared pages:
      p has one, its own pages do not need the table they come under, and copying
      its own pages takes every free frame. */
  ghost predicate Tears(km: seq<Kmap>, free: nat, p: Proc) {
    HasShared(p.shared) && Pages(p.sz) <= SHAREDIR * N && free == Cost(km, 1, Pages(p.sz))
  }

  // ---- what holds between calls

  /** A process that has a shared page has its frame mapped there; one that has
      not has nothing there. Once a fork has failed half-way (`torn`), a flag may
      stand for a page that is not mapped. */
  ghost predicate SharedOk(s: Store, frames: seq<nat>, torn: bool, p: Proc)
    requires Shaped(s) && p.pgdir in s.spaces && |frames| == NSHAREPAGE && |p.shared| == NSHAREPAGE
  {
    forall i :: 0 <= i < NSHAREPAGE ==>
      if p.shared[i] == 0 then Pte(s, p.pgdir, Place(i)) == Absent
      else torn || Pte(s, p.pgdir, Place(i)) == Present(frames[i], Flags(true, true))
  }

  ghost predicate ProcOk(s: Store, frames: seq<nat>, torn: bool, p: Proc)
    requires Shaped(s) && |frames| == NSHAREPAGE
  {
    && |p.shared| == NSHAREPAGE
    && (forall i :: 0 <= i < NSHAREPAGE ==> p.shared[i] == 0 || p.shared[i] == Place(i))
    && if p.phase == Unused then torn || forall i :: 0 <= i < NSHAREPAGE ==> p.shared[i] == 0
       else
         && p.pgdir in s.spaces && p.sz <= LIMIT * PGSIZE && SharedOk(s, frames, torn, p)
         && forall w :: 1 <= w < Pages(p.sz) ==> Pte(s, p.pgdir, w).Present?
  }

  /** The kernel holds the shared frames: no space owns them. */
  ghost predicate FramesHeld(s: Store, frames: seq<nat>) {
    |frames| == NSHAREPAGE && forall i :: 0 <= i < NSHAREPAGE ==> frames[i] in s.owner && s.owner[frames[i]] == Held
  }

  ghost predicate ProcsOk(s: Store, frames: seq<nat>, torn: bool, ps: seq<Proc>)
    requires Shaped(s) && |frames| == NSHAREPAGE
  {
    && (forall k :: 0 <= k < |ps| ==> ProcOk(s, frames, torn, ps[k]))
    && (forall j, k :: 0 <= j < k < |ps| && ps[j].phase != Unused && ps[k].phase != Unused ==>
         ps[j].pgdir != ps[k].pgdir)
  }

  /** Unless a fork failed half-way, the count of a page is the number of
      processes that have it plus the number of times exec dropped it. */
  ghost predicate Counted(ps: seq<Proc>, counts: seq<int>, drops: seq<nat>)
    requires Wide(ps)
  {
    |counts| == |drops| == NSHAREPAGE && forall i :: 0 <= i < NSHAREPAGE ==> counts[i] == |Users(ps, i)| + drops[i]
  }

  // ---- how the spaces change

  /** Spaces other than d are as they were. */
  ghost predicate OthersSame(s: Store, r: Store, d: nat)
    requires Shaped(s) && Shaped(r)
  {
    && (forall e :: e in s.spaces && e != d ==> e in r.spaces)
    && (forall e, w :: e in s.spaces && e != d && 0 <= w ==> Pte(r, e, w) == Pte(s, e, w))
  }

  lemma ProcKept(s: Store, r: Store, frames: seq<nat>, torn: bool, p: Proc, d: nat)
    requires Shaped(s) && Shaped(r) && |frames| == NSHAREPAGE && ProcOk(s, frames, torn, p) && OthersSame(s, r, d)
    requires p.phase == Unused || p.pgdir != d
    ensures ProcOk(r, frames, torn, p) && ProcOk(r, frames, true, p)
  {
    hide Pte;
  }

  lemma ProcsKept(s: Store, r: Store, frames: seq<nat>, torn: bool, torn': bool, ps: seq<Proc>, k: nat, d: nat, p: Proc)
    requires Shaped(s) && Shaped(r) && |frames| == NSHAREPAGE && k < |ps| && ProcsOk(s, frames, torn, ps)
    requires OthersSame(s, r, d)
    requires d in s.spaces ==> ps[k].phase != Unused && ps[k].pgdir == d
    requires (torn ==> torn') && ProcOk(r, frames, torn', p)
    requires (p.phase != Unused ==> p.pgdir == d || p.pgdir !in s.spaces)
    ensures ProcsOk(r, frames, torn', ps[k := p])
  {
    hide Pte, SharedOk;
    var qs := ps[k := p];
    forall j | 0 <= j < |qs| ensures ProcOk(r, frames, torn', qs[j]) {
      if j != k {
        assert ProcOk(s, frames, torn, ps[j]);
        ProcKept(s, r, frames, torn, ps[j], d);
      }
    }
  }

  /** What the lemmas below need of a change to space d alone. */
  lemma MappedKeeps(s: Store, r: Store, frames: seq<nat>, d: nat, v: nat)
    requires Shaped(s) && Shaped(r) && SameOutside(s, r, d, v, v + 1) && OnlyTables(s, r, d, {})
    requires FramesHeld(s, frames)
    ensures OthersSame(s, r, d) && FramesHeld(r, frames) && r.spaces == s.spaces
    ensures d in s.spaces ==> forall w :: 0 <= w && w != v ==> Pte(r, d, w) == Pte(s, d, w)
  {
    hide Pte, Shaped;
  }

  lemma BuiltKeeps(s: Store, r: Store, frames: seq<nat>, d: nat)
    requires Shaped(s) && Shaped(r) && Built(s, r, d) && FramesHeld(s, frames)
    ensures OthersSame(s, r, d) && FramesHeld(r, frames) && d !in s.spaces && d in r.spaces
  {
    hide Pte, Shaped;
  }

  lemma TornKeeps(s: Store, r: Store, frames: seq<nat>, d: nat)
    requires Shaped(s) && Shaped(r) && Torn(s, r, d) && FramesHeld(s, frames) && d in s.spaces
    ensures OthersSame(s, r, d) && FramesHeld(r, frames)
  {
    hide Pte, Shaped;
    forall i | 0 <= i < NSHAREPAGE ensures frames[i] in r.owner && r.owner[frames[i]] == Held {
      assert frames[i] in s.owner && s.owner[frames[i]] == Held;
    }
  }

  lemma SameKeeps(s: Store, r: Store, frames: seq<nat>)
    requires Shaped(s) && Shaped(r) && SameAll(s, r) && r.owner == s.owner && FramesHeld(s, frames)
    ensures FramesHeld(r, frames) && r.spaces == s.spaces && forall d :: OthersSame(s, r, d)
  {
    hide Pte, Shaped;
  }

  /** What one process writes to a shared page every other sees: they have the
      same frame. */
  lemma SameFrame(s: Store, frames: seq<nat>, ps: seq<Proc>, j: nat, k: nat, i: nat)
    requires Shaped(s) && |frames| == NSHAREPAGE && ProcsOk(s, frames, false, ps) && j < |ps| && k < |ps|
    requires i < NSHAREPAGE
    requires ps[j].phase == Live && ps[k].phase == Live
    ensures |ps[j].shared| == |ps[k].shared| == NSHAREPAGE && ps[j].pgdir in s.spaces && ps[k].pgdir in s.spaces
    ensures ps[j].shared[i] != 0 && ps[k].shared[i] != 0 ==>
              Pte(s, ps[j].pgdir, Place(i)) == Pte(s, ps[k].pgdir, Place(i)) == Present(frames[i], Flags(true, true))
  {
    hide Pte, Shaped;
    assert ProcOk(s, frames, false, ps[j]) && ProcOk(s, frames, false, ps[k]);
  }

  /** A space no process uses any more can go. */
  lemma ProcsWithout(s: Store, r: Store, frames: seq<nat>, torn: bool, ps: seq<Proc>, d: nat)
    requires Shaped(s) && Shaped(r) && |frames| == NSHAREPAGE && ProcsOk(s, frames, torn, ps) && OthersSame(s, r, d)
    requires forall k :: 0 <= k < |ps| && ps[k].phase != Unused ==> ps[k].pgdir != d
    ensures ProcsOk(r, frames, torn, ps)
  {
    hide Pte, SharedOk, Shaped;
    forall j | 0 <= j < |ps| ensures ProcOk(r, frames, torn, ps[j]) {
      ProcKept(s, r, frames, torn, ps[j], d);
    }
  }

  // ---- the shared pages of a child

  /** From s to r, the first i of the shared pages have been mapped in e. */
  ghost predicate Placed(s: Store, r: Store, frames: seq<nat>, shared: seq<nat>, e: nat, i: nat) {
    && Shaped(s) && Shaped(r) && e in s.spaces && e in r.spaces && |frames| == |shared| == NSHAREPAGE && i <= NSHAREPAGE
    && (forall j :: 0 <= j < NSHAREPAGE ==>
          Pte(r, e, Place(j)) == if j < i && shared[j] != 0 then Present(frames[j], Flags(true, true)) else Absent)
    && (forall w :: 0 <= w < LIMIT ==> Pte(r, e, w) == Pte(s, e, w))
    && (!HasShared(shared[..i]) ==> r == s)
  }

  lemma PlacedNone(s: Store, frames: seq<nat>, shared: seq<nat>, e: nat)
    requires Shaped(s) && e in s.spaces && |frames| == |shared| == NSHAREPAGE
    requires forall w :: LIMIT <= w < KERNPAGE ==> Pte(s, e, w) == Absent
    ensures Placed(s, s, frames, shared, e, 0) && !HasShared(shared[..0])
  {
    hide Pte, Shaped;
  }

  lemma PlacedAbsent(s: Store, r: Store, frames: seq<nat>, shared: seq<nat>, e: nat, i: nat)
    requires Placed(s, r, frames, shared, e, i) && i < NSHAREPAGE && Shaped(r) && e in r.spaces
    ensures Pte(r, e, Place(i)) == Absent
  {
    hide Pte, Shaped;
  }

  lemma SharedStep(shared: seq<nat>, i: nat)
    requires i < |shared|
    ensures HasShared(shared[..i + 1]) <==> HasShared(shared[..i]) || shared[i] != 0
  {
    if HasShared(shared[..i]) {
      var j :| 0 <= j < i && shared[..i][j] != 0;
      assert shared[..i + 1][j] == shared[j];
    }
    if shared[i] != 0 { assert shared[..i + 1][i] == shared[i]; }
    if HasShared(shared[..i + 1]) {
      var j :| 0 <= j < i + 1 && shared[..i + 1][j] != 0;
      assert j < i ==> shared[..i][j] == shared[j];
    }
  }

  lemma PlacedSkip(s: Store, r: Store, frames: seq<nat>, shared: seq<nat>, e: nat, i: nat)
    requires Placed(s, r, frames, shared, e, i) && i < NSHAREPAGE && |shared| == NSHAREPAGE && shared[i] == 0
    ensures Placed(s, r, frames, shared, e, i + 1) && (HasShared(shared[..i + 1]) <==> HasShared(shared[..i]))
  {
    hide Pte, Shaped, HasShared;
    SharedStep(shared, i);
  }

  /** Once a shared page is there, so is the table. */
  lemma PlacedTable(s: Store, r: Store, frames: seq<nat>, shared: seq<nat>, e: nat, i: nat)
    requires Placed(s, r, frames, shared, e, i) && i < NSHAREPAGE && |shared| == NSHAREPAGE && Shaped(r)
    requires e in r.spaces
    ensures HasShared(shared[..i]) ==> HasTable(r, e, Place(i))
    ensures !HasShared(shared[..i]) ==> r == s
  {
    hide Pte, Shaped, HasTable;
    if HasShared(shared[..i]) {
      var j :| 0 <= j < i && shared[..i][j] != 0;
      PlaceDir(j);
      WalkAt(r, e, Place(j));
      SameDir(r, e, i, j);
    }
  }

  lemma PlacedStep(s: Store, s1: Store, r: Store, frames: seq<nat>, shared: seq<nat>, e: nat, i: nat)
    requires Placed(s, s1, frames, shared, e, i) && i < NSHAREPAGE && |frames| == |shared| == NSHAREPAGE
    requires shared[i] != 0
    requires Shaped(s1) && Shaped(r) && e in r.spaces && SameOutside(s1, r, e, Place(i), Place(i) + 1)
    requires Pte(r, e, Place(i)) == Present(frames[i], Flags(true, true))
    ensures Placed(s, r, frames, shared, e, i + 1) && HasShared(shared[..i + 1])
  {
    hide Pte, Shaped, HasShared;
    SharedStep(shared, i);
    forall w | 0 <= w < KERNPAGE && w != Place(i) ensures Pte(r, e, w) == Pte(s1, e, w) {}
  }

  /** The mapping of shared page i failed: it was the first, and the table was
      missing from the start. */
  lemma PlacedFails(s: Store, s1: Store, r: Store, frames: seq<nat>, shared: seq<nat>, e: nat, i: nat)
    requires Placed(s, s1, frames, shared, e, i) && i < NSHAREPAGE && |shared| == NSHAREPAGE && shared[i] != 0
    requires Shaped(s) && e in s.spaces && Shaped(s1) && Shaped(r) && e in s1.spaces && e in r.spaces
    requires SameAll(s1, r) && r.tables == s1.tables && exists w :: Place(i) <= w < Place(i) + 1 && !HasTable(r, e, w)
    ensures !HasShared(shared[..i]) && s1 == s && !HasTable(s, e, Place(0)) && HasShared(shared)
    ensures forall j :: 0 <= j < i ==> shared[j] == 0
    ensures forall w :: 0 <= w ==> Pte(r, e, w) == Pte(s, e, w)
  {
    hide Pte, Shaped, HasTable, Placed;
    var w :| Place(i) <= w < Place(i) + 1 && !HasTable(r, e, w);
    PlaceDir(i);
    NoTableStill(s1, r, e, Place(i));
    PlacedTable(s, s1, frames, shared, e, i);
    SameDir(s, e, 0, i);
    forall j | 0 <= j < i ensures shared[j] == 0 { assert shared[..i][j] == shared[j]; }
  }

  lemma PlacedAll(s: Store, r: Store, frames: seq<nat>, shared: seq<nat>, e: nat)
    requires Placed(s, r, frames, shared, e, NSHAREPAGE)
    ensures Shaped(s) && Shaped(r) && e in s.spaces && e in r.spaces && |frames| == |shared| == NSHAREPAGE
    ensures forall i :: 0 <= i < NSHAREPAGE ==>
              Pte(r, e, Place(i)) == if shared[i] == 0 then Absent else Present(frames[i], Flags(true, true))
    ensures forall w :: 0 <= w < LIMIT ==> Pte(r, e, w) == Pte(s, e, w)
  {
    hide Pte, Shaped;
  }

  lemma CopiedIs(shared: seq<nat>, was: seq<nat>, child: seq<nat>, before: seq<int>, counts: seq<int>)
    requires CopiedTo(shared, was, child, before, counts, NSHAREPAGE, true)
    ensures |shared| == |was| == |child| == NSHAREPAGE
    ensures forall i :: 0 <= i < NSHAREPAGE ==> child[i] == if shared[i] != 0 then shared[i] else was[i]
  {
  }

  lemma CopiedNone(shared: seq<nat>, child: seq<nat>, counts: seq<int>)
    requires |shared| == |child| == |counts| == NSHAREPAGE
    ensures CopiedTo(shared, child, child, counts, counts, 0, true)
  {
  }

  lemma CopiedSkip(shared: seq<nat>, was: seq<nat>, child: seq<nat>, before: seq<int>, counts: seq<int>, i: nat)
    requires CopiedTo(shared, was, child, before, counts, i, true) && i < NSHAREPAGE == |shared| && shared[i] == 0
    ensures CopiedTo(shared, was, child, before, counts, i + 1, true)
  {
  }

  lemma CopiedStep(shared: seq<nat>, was: seq<nat>, child: seq<nat>, before: seq<int>, counts: seq<int>, i: nat)
    requires CopiedTo(shared, was, child, before, counts, i, true) && i < NSHAREPAGE == |shared| && shared[i] != 0
    requires |child| == |counts| == NSHAREPAGE
    ensures CopiedTo(shared, was, child[i := shared[i]], before, counts[i := counts[i] + 1], i + 1, true)
  {
  }

  lemma CopiedFlag(shared: seq<nat>, was: seq<nat>, child: seq<nat>, before: seq<int>, counts: seq<int>, i: nat)
    requires CopiedTo(shared, was, child, before, counts, i, true) && i < NSHAREPAGE == |shared| == |child|
    requires shared[i] != 0
    ensures CopiedTo(shared, was, child[i := shared[i]], before, counts, i, false)
  {
  }

  // ---- a program loaded by exec

  /** A loadable segment of a program file; `loads` says whether its bytes could
      be read from the file. */
  datatype Segment = Segment(vaddr: nat, filesz: nat, memsz: nat, loads: bool) {
    predicate Refused() {
      memsz < filesz || vaddr + memsz >= KERNBASE || vaddr % PGSIZE != 0 || !loads
    }
  }

  /** Segments are 32-bit quantities, and programs leave room for their stack below
      the shared pages. */
  predicate Low(g: Segment) {
    && g.vaddr < UINT && g.filesz < UINT && g.memsz < UINT
    && (g.vaddr + g.memsz < KERNBASE ==> g.vaddr + g.memsz <= (LIMIT - 2) * PGSIZE)
  }

  /** Where the highest segment ends, PGSIZE at least. */
  function Peak(segs: seq<Segment>): (r: nat)
    ensures r >= PGSIZE && forall g :: g in segs ==> g.vaddr + g.memsz <= r
    ensures r == PGSIZE || exists g :: g in segs && r == g.vaddr + g.memsz
  {
    if segs == [] then PGSIZE
    else
      var m, g := Peak(segs[..|segs| - 1]), segs[|segs| - 1];
      if g.vaddr + g.memsz < m then m else g.vaddr + g.memsz
  }

  lemma PeakStep(segs: seq<Segment>, i: nat)
    requires i < |segs|
    ensures Peak(segs[..i + 1]) == (if segs[i].vaddr + segs[i].memsz < Peak(segs[..i]) then Peak(segs[..i])
                                    else segs[i].vaddr + segs[i].memsz)
    ensures segs[i] in segs && Peak(segs[..i + 1]) <= Peak(segs)
  {
    assert segs[..i + 1][..i] == segs[..i];
    var r := Peak(segs[..i + 1]);
    if r != PGSIZE {
      var g :| g in segs[..i + 1] && r == g.vaddr + g.memsz;
      assert g in segs;
    }
  }

  /** The tests of exec on a segment let through exactly what is not refused. */
  lemma SegmentTests(g: Segment)
    requires Low(g)
    ensures g.Refused() <==>
            !(g.filesz <= g.memsz && (g.vaddr + g.memsz) % UINT >= g.vaddr) || g.vaddr + g.memsz >= KERNBASE
            || g.vaddr % PGSIZE != 0 || !g.loads
  {
  }

  /** Memory that does not suffice for some of the segments does not for all. */
  lemma PeakCosts(km: seq<Kmap>, segs: seq<Segment>, i: nat)
    requires i < |segs|
    ensures Cost(km, 1, Pages(Peak(segs[..i + 1]))) <= Cost(km, 1, Pages(Peak(segs)))
  {
    PeakStep(segs, i);
    PagesOrder(Peak(segs[..i + 1]), Peak(segs));
    CostMono(km, 1, Pages(Peak(segs[..i + 1])), Pages(Peak(segs)));
  }

  /** From s0 a space d has been built with exactly the user pages 1 up to sz, all
      of them open to user code. */
  ghost predicate Grown(s0: Store, s: Store, km: seq<Kmap>, d: nat, sz: nat) {
    && Shaped(s0) && Shaped(s) && d in s.spaces && Built(s0, s, d) && Exactly(s, km, d, 1, Pages(sz))
    && (forall w :: 1 <= w < Pages(sz) ==> Pte(s, d, w).Present? && Pte(s, d, w).flags == Flags(true, true))
    && (forall w :: 0 <= w < KERNPAGE && !(1 <= w < Pages(sz)) ==> Pte(s, d, w) == Absent)
  }

  lemma GrownStart(s0: Store, s: Store, km: seq<Kmap>, d: nat)
    requires Shaped(s0) && Shaped(s) && d in s.spaces && Built(s0, s, d) && Exactly(s, km, d, 0, 0) && KmapOk(km)
    ensures Grown(s0, s, km, d, PGSIZE)
  {
    hide Pte, Shaped, Built, Exactly, KmapOk;
    ExactBelow(s, km, d, 0, 0);
    ExactNone(s, km, d, 0, 0, 1, 1);
    OnePage();
  }

  lemma GrownAt(s0: Store, s: Store, km: seq<Kmap>, d: nat, sz: nat)
    requires Grown(s0, s, km, d, sz)
    ensures Shaped(s0) && Shaped(s) && d in s.spaces && Built(s0, s, d) && Exactly(s, km, d, 1, Pages(sz))
    ensures forall w :: 1 <= w < Pages(sz) ==> Pte(s, d, w).Present? && Pte(s, d, w).flags == Flags(true, true)
    ensures forall w :: 0 <= w < KERNPAGE && !(1 <= w < Pages(sz)) ==> Pte(s, d, w) == Absent
  {
    hide Pte, Shaped, Built, Exactly;
  }

  lemma GrownStep(s0: Store, s: Store, r: Store, km: seq<Kmap>, d: nat, sz: nat, n: nat)
    requires Grown(s0, s, km, d, sz) && Shaped(s) && Shaped(r) && d in s.spaces && d in r.spaces && 0 < sz
    requires Pages(sz) <= Pages(n) && Tight(r, d)
    requires Shaped(s0) && Built(s0, r, d)
    requires forall w :: 0 <= w && !(Pages(sz) <= w < Pages(n)) ==> Pte(r, d, w) == Pte(s, d, w)
    requires forall w :: Pages(sz) <= w < Pages(n) ==> Pte(r, d, w).Present? && Pte(r, d, w).flags == Flags(true, true)
    ensures Grown(s0, r, km, d, n)
  {
    hide Pte, Shaped, Built, Exactly, Tight;
    assert Pages(sz) >= 1;
    ExactGrown(s, r, km, d, 1, Pages(sz), Pages(n));
  }

  lemma Rounded(s0: Store, s: Store, km: seq<Kmap>, d: nat, sz: nat)
    requires Grown(s0, s, km, d, sz)
    ensures Grown(s0, s, km, d, Pages(sz) * PGSIZE) && Pages(Pages(sz) * PGSIZE) == Pages(sz)
    ensures Pages(Pages(sz) * PGSIZE + 2 * PGSIZE) == Pages(sz) + 2
    ensures sz <= (LIMIT - 2) * PGSIZE ==> Pages(sz) <= LIMIT - 2
  {
    hide Pte, Shaped, Built, Exactly;
    assert Pages(Pages(sz) * PGSIZE) == Pages(sz);
  }

  /** Pages 1 to n - 1 are mapped, and user code reaches all but the last but one,
      which lies beneath the stack. */
  ghost predicate Guarding(s: Store, d: nat, n: nat)
    requires Shaped(s) && d in s.spaces
  {
    forall w :: 1 <= w < n ==> Pte(s, d, w).Present? && (Pte(s, d, w).flags.u <==> w != n - 2)
  }

  lemma GuardMapped(s: Store, d: nat, n: nat)
    requires Shaped(s) && d in s.spaces && Guarding(s, d, n)
    ensures forall w :: 1 <= w < n ==> Pte(s, d, w).Present?
  {
    hide Pte, Shaped;
  }

  lemma GuardKeeps(s0: Store, s: Store, r: Store, km: seq<Kmap>, d: nat, sz: nat)
    requires Grown(s0, s, km, d, sz) && Shaped(s) && Shaped(r) && d in s.spaces && d in r.spaces
    requires sz % PGSIZE == 0 && 3 <= sz / PGSIZE && SameBut(s, r, d, sz / PGSIZE - 2)
    requires Pte(s, d, sz / PGSIZE - 2).Present? && Pte(r, d, sz / PGSIZE - 2) == Guarded(Pte(s, d, sz / PGSIZE - 2))
    ensures Guarding(r, d, Pages(sz)) && Pages(sz) == sz / PGSIZE
    ensures forall w :: LIMIT <= w < KERNPAGE && Pages(sz) <= w ==> Pte(r, d, w) == Absent
  {
    hide Pte, Shaped, Built, Exactly;
    assert Pages(sz) == sz / PGSIZE;
  }

  lemma GuardOther(s: Store, r: Store, d: nat, e: nat, n: nat)
    requires Shaped(s) && Shaped(r) && OthersSame(s, r, e) && d in s.spaces && d != e && Guarding(s, d, n)
    ensures d in r.spaces && Guarding(r, d, n)
  {
    hide Pte, Shaped;
  }

  datatype AccessResult = Illegal | Panicked | Mapped(addr: nat)

  class SharedMemory {
    const mem: Memory
    var procs: seq<Proc>
    var frames: seq<nat>
    var counts: seq<int>
    /** How many times exec has dropped each page without counting it down, and
        whether a fork has failed while mapping the shared pages. */
    ghost var drops: seq<nat>
    ghost var torn: bool

    ghost predicate Valid()
      reads this, mem, mem.kmem
    {
      && mem.Valid() && mem.top == LIMIT && FramesHeld(mem.Now(), frames)
      && |frames| == |counts| == |drops| == NSHAREPAGE && Wide(procs)
      && ProcsOk(mem.Now(), frames, torn, procs)
      && (!torn ==> Counted(procs, counts, drops))
    }

    lemma Parts()
      requires Valid()
      ensures mem.Valid() && mem.top == LIMIT && Shaped(mem.Now()) && FramesHeld(mem.Now(), frames)
      ensures |frames| == |counts| == |drops| == NSHAREPAGE && Wide(procs)
      ensures ProcsOk(mem.Now(), frames, torn, procs) && (!torn ==> Counted(procs, counts, drops))
    {
    }

    lemma Whole()
      requires mem.Valid() && mem.top == LIMIT && Shaped(mem.Now()) && FramesHeld(mem.Now(), frames)
      requires |frames| == |counts| == |drops| == NSHAREPAGE && Wide(procs)
      requires ProcsOk(mem.Now(), frames, torn, procs) && (!torn ==> Counted(procs, counts, drops))
      ensures Valid()
    {
    }

    /** The shared frames are on no free list, whatever has been torn down. */
    lemma NeverFree(i: nat)
      requires Valid() && i < NSHAREPAGE
      ensures frames[i] !in mem.kmem.FreeSet()
    {
      assert frames[i] in mem.owner.Keys;
    }

    /** shmem_access */
    method Access(p: nat, n: int) returns (r: AccessResult)
      requires Valid() && p < |procs| && procs[p].phase == Live
      modifies this`procs, this`counts, mem`owner, mem`tables, mem.kmem
      ensures Valid()
      ensures r == Illegal <==> !(0 <= n < NSHAREPAGE)
      ensures r.Mapped? ==>
                && 0 <= n < NSHAREPAGE && r.addr == Place(n) * PGSIZE
                && procs == old(procs)[p := old(procs)[p].(shared := old(procs)[p].shared[n := Place(n)])]
                && (!torn ==> Shaped(mem.Now()) && procs[p].pgdir in mem.spaces
                              && Pte(mem.Now(), procs[p].pgdir, Place(n)) == Present(frames[n], Flags(true, true)))
      ensures !r.Mapped? ==> procs == old(procs) && counts == old(counts)
      ensures Shaped(old(mem.Now())) && old(procs)[p].pgdir in old(mem.spaces)
      ensures r == Panicked <==> 0 <= n < NSHAREPAGE && old(procs)[p].shared[n] == 0 && old(mem.kmem.FreeSet()) == {}
                                 && !HasTable(old(mem.Now()), old(procs)[p].pgdir, Place(n))
      ensures r.Mapped? && old(procs)[p].shared[n] == 0 ==>
                |old(mem.kmem.FreeSet())| ==
                |mem.kmem.FreeSet()| + if HasTable(old(mem.Now()), old(procs)[p].pgdir, Place(n)) then 0 else 1
      ensures r.Mapped? ==>
                counts == if old(procs)[p].shared[n] != 0 then old(counts) else old(counts)[n := old(counts)[n] + 1]
    {
      hide Valid, Memory.Valid, Pte, Shaped, SameOutside, SameAll, OnlyTables, ProcsOk, OthersSame, FramesHeld, V2P,
           Counted, HasTable, Tight, Wide;
      Parts();
      ghost var s := mem.Now();
      AccessReady(s, frames, torn, procs, p);
      if n < 0 || n >= NSHAREPAGE {
        return Illegal;
      }
      if procs[p].shared[n] != 0 {
        assert procs[p].shared == procs[p].shared[n := Place(n)];
        return Mapped(procs[p].shared[n] * PGSIZE);
      }
      var va := Place(n) * PGSIZE;
      CheckNeverRejects(n, procs[p].sz);
      if procs[p].sz > V2P(va) {
        return Illegal;
      }
      var d := procs[p].pgdir;
      Aligned(Place(n), 1);
      var ok := mem.Mappages(d, va, PGSIZE, frames[n], Flags(true, true), false);
      mem.IsShaped();
      MappedKeeps(s, mem.Now(), frames, d, Place(n));
      if !ok {
        SameProcs(s, mem.Now(), frames, torn, procs);
        PlaceDir(n);
        NoTableStill(s, mem.Now(), d, Place(n));
        Whole();
        return Panicked;
      }
      AccessGives(s, mem.Now(), frames, torn, procs, p, n);
      AccessCounts(procs, counts, drops, p, n, torn);
      counts := counts[n := counts[n] + 1];
      procs := procs[p := procs[p].(shared := procs[p].shared[n := Place(n)])];
      WideSet(old(procs), p, procs[p]);
      Whole();
      r := Mapped(va);
    }

    /** The loop at the end of copyuvm: the child gets the parent's shared pages.
        Only the first one can fail, for want of the table they all come under; it
        leaves the child's flag set and the count as it was. */
    method CopyShared(p: nat, c: nat, e: nat, ghost s0: Store) returns (ok: bool, ghost n: nat)
      requires mem.Valid() && mem.top == LIMIT && Shaped(mem.Now()) && Shaped(s0) && Built(s0, mem.Now(), e)
      requires FramesHeld(s0, frames) && |frames| == |counts| == NSHAREPAGE && Wide(procs)
      requires p < |procs| && c < |procs| && p != c
      requires forall i :: 0 <= i < NSHAREPAGE ==> procs[p].shared[i] == 0 || procs[p].shared[i] == Place(i)
      requires e in mem.spaces && forall w :: LIMIT <= w < KERNPAGE ==> Pte(mem.Now(), e, w) == Absent
      modifies this`procs, this`counts, mem`owner, mem`tables, mem.kmem
      ensures mem.Valid() && Shaped(old(mem.Now())) && Shaped(mem.Now()) && Built(s0, mem.Now(), e) && e in mem.spaces
      ensures !ok <==>
                && HasShared(old(procs)[p].shared) && !HasTable(old(mem.Now()), e, Place(0))
                && old(mem.kmem.FreeSet()) == {}
      ensures if ok then n == NSHAREPAGE
              else n < NSHAREPAGE && old(procs)[p].shared[n] != 0
                   && forall i :: 0 <= i < n ==> old(procs)[p].shared[i] == 0
      ensures |procs| == |old(procs)| && Wide(procs) && |counts| == NSHAREPAGE
      ensures forall k :: 0 <= k < |procs| && k != c ==> procs[k] == old(procs)[k]
      ensures procs[c] == old(procs)[c].(shared := procs[c].shared)
      ensures CopiedTo(old(procs)[p].shared, old(procs)[c].shared, procs[c].shared, old(counts), counts, n, ok)
      ensures ok ==> forall i :: 0 <= i < NSHAREPAGE ==>
                Pte(mem.Now(), e, Place(i)) ==
                if procs[p].shared[i] == 0 then Absent else Present(frames[i], Flags(true, true))
      ensures forall w :: 0 <= w < LIMIT ==> Pte(mem.Now(), e, w) == old(Pte(mem.Now(), e, w))
    {
      hide Memory.Valid, Pte, Shaped, SameOutside, SameAll, OnlyTables, Built, FramesHeld, HasTable, Tight, Placed,
           CopiedTo, HasShared;
      ghost var s, free, was, shared := mem.Now(), mem.kmem.FreeSet(), procs, procs[p].shared;
      PlacedNone(s, frames, shared, e);
      CopiedNone(shared, procs[c].shared, counts);
      for i := 0 to NSHAREPAGE
        invariant mem.Valid() && Shaped(mem.Now()) && Built(s0, mem.Now(), e) && e in mem.spaces
        invariant |procs| == |was| && Wide(procs) && |counts| == NSHAREPAGE
        invariant forall k :: 0 <= k < |procs| && k != c ==> procs[k] == was[k]
        invariant procs[c] == was[c].(shared := procs[c].shared)
        invariant CopiedTo(shared, was[c].shared, procs[c].shared, old(counts), counts, i, true)
        invariant Placed(s, mem.Now(), frames, shared, e, i)
        invariant !HasShared(shared[..i]) ==> mem.kmem.FreeSet() == free
        invariant HasShared(shared[..i]) ==> HasTable(s, e, Place(0)) || free != {}
      {
        if procs[p].shared[i] != 0 {
          ghost var s1, child, before := mem.Now(), procs[c].shared, counts;
          procs := procs[c := procs[c].(shared := procs[c].shared[i := procs[p].shared[i]])];
          Aligned(Place(i), 1);
          PlacedAbsent(s, s1, frames, shared, e, i);
          ok := mem.Mappages(e, procs[c].shared[i] * PGSIZE, PGSIZE, frames[i], Flags(true, true), false);
          mem.IsShaped();
          BuiltMore(s0, s1, mem.Now(), e, Place(i), Place(i) + 1);
          if !ok {
            PlacedFails(s, s1, mem.Now(), frames, shared, e, i);
            CopiedFlag(shared, was[c].shared, child, old(counts), counts, i);
            return ok, i;
          }
          counts := counts[i := counts[i] + 1];
          PlacedTable(s, s1, frames, shared, e, i);
          SameDir(s, e, 0, i);
          PlacedStep(s, s1, mem.Now(), frames, shared, e, i);
          CopiedStep(shared, was[c].shared, child, old(counts), before, i);
        } else {
          PlacedSkip(s, mem.Now(), frames, shared, e, i);
          CopiedSkip(shared, was[c].shared, procs[c].shared, old(counts), counts, i);
        }
      }
      assert shared[..NSHAREPAGE] == shared;
      PlacedAll(s, mem.Now(), frames, shared, e);
      return true, NSHAREPAGE;
    }

    ghost predicate ForkTears(p: nat)
      requires p < |procs|
      reads this, mem, mem.kmem
    {
      Tears(mem.kmap, |mem.kmem.FreeSet()|, procs[p])
    }

    /** fork, as far as memory goes: p's child takes slot c. It succeeds exactly if
        there are enough frames for p's own pages and it does not tear; n is the
        shared page it was about to map when it tore. */
    method Fork(p: nat, c: nat) returns (ok: bool, ghost n: nat)
      requires Valid() && p < |procs| && c < |procs| && procs[p].phase == Live && procs[c].phase == Unused
      modifies this`procs, this`counts, this`torn, mem, mem.kmem
      ensures Valid() && |procs| == |old(procs)|
      ensures forall k :: 0 <= k < |procs| && k != c ==> procs[k] == old(procs)[k]
      ensures ok <==> |old(mem.kmem.FreeSet())| >= Cost(mem.kmap, 1, Pages(procs[p].sz)) && !old(ForkTears(p))
      ensures torn <==> old(torn) || old(ForkTears(p))
      ensures n < NSHAREPAGE <==> old(ForkTears(p))
      ensures ok ==> procs[c].phase == Live && procs[c].sz == procs[p].sz
      ensures ok && !torn ==> procs[c].shared == procs[p].shared
      ensures |procs[p].shared| == |procs[c].shared| == |old(procs)[c].shared| == NSHAREPAGE
      ensures ok ==> forall i :: 0 <= i < NSHAREPAGE ==>
                procs[c].shared[i] == if procs[p].shared[i] != 0 then procs[p].shared[i] else old(procs)[c].shared[i]
      ensures !ok ==> mem.kmem.FreeSet() == old(mem.kmem.FreeSet()) && procs[c].phase == Unused
      ensures !ok && !old(ForkTears(p)) ==> procs == old(procs) && counts == old(counts)
      ensures old(ForkTears(p)) ==> procs[p].shared[n] != 0 && forall i :: 0 <= i < n ==> procs[p].shared[i] == 0
      ensures old(ForkTears(p)) && !old(torn) ==>
                procs[c].shared[n] != 0 && counts[n] == |Users(procs, n)| + drops[n] - 1
    {
      hide Valid, Memory.Valid, Pte, Shaped, Built, Filled, SameAll, ProcsOk, OthersSame, FramesHeld, Counted,
           Balanced, DataKept, Exactly, Cost, HasTable, KmapOk, HasShared, CopiedTo, Wide;
      Parts();
      ghost var s0, free0, was, before := mem.Now(), mem.kmem.FreeSet(), procs, counts;
      mem.KmapIsOk();
      assert Balanced(mem.managed, s0.owner.Keys, free0) by { mem.IsBalanced(); }
      ForkReady(s0, frames, torn, procs, p, c);
      var e := mem.Copyuvm(procs[p].pgdir, procs[p].sz, 1);
      if e == 0 {
        SameKeeps(s0, mem.Now(), frames);
        SameProcs(s0, mem.Now(), frames, torn, procs);
        Whole();
        return false, NSHAREPAGE;
      }
      ghost var s1 := mem.Now();
      ForkPages(s1, mem.data, e, Pages(procs[p].sz), Image(s0, old(mem.data), procs[p].pgdir, 1, Pages(procs[p].sz)));
      ExactBelow(s1, mem.kmap, e, 1, Pages(procs[p].sz));
      PlaceTable(s1, mem.kmap, e, 1, Pages(procs[p].sz));
      ok, n := CopyShared(p, c, e, s0);
      if !ok {
        mem.Undo(e, s0, free0);
        mem.IsShaped();
        SameKeeps(s0, mem.Now(), frames);
        ForkTorn(s0, mem.Now(), frames, torn, was, procs, c, was[p].shared, before, counts, n);
        ForkUncounted(was, procs, c, was[p].shared, before, counts, drops, n, torn);
        torn := true;
        WideAt(procs, c);
        Whole();
        return;
      }
      WideAt(procs, c);
      WideSet(procs, c, procs[c].(phase := Live, pgdir := e, sz := procs[p].sz));
      procs := procs[c := procs[c].(phase := Live, pgdir := e, sz := procs[p].sz)];
      BuiltKeeps(s0, mem.Now(), frames, e);
      ForkGives(s0, mem.Now(), frames, torn, was, procs, p, c, e, before, counts);
      ForkCounts(was, procs, c, was[p].shared, before, counts, drops, torn);
      CopiedIs(was[p].shared, was[c].shared, procs[c].shared, before, counts);
      Whole();
    }

    /** exec, as far as memory goes: a space that grows segment by segment from
        page 1 on and ends in a guard page and a stack page. `args` says whether
        the argument strings could be pushed. The shared pages are dropped, and not
        counted down. */
    method Exec(p: nat, segs: seq<Segment>, args: bool) returns (ok: bool)
      requires Valid() && p < |procs| && procs[p].phase == Live && forall g :: g in segs ==> Low(g)
      modifies this`procs, this`drops, mem, mem.kmem
      ensures Valid() && |procs| == |old(procs)|
      ensures (forall k :: 0 <= k < |procs| && k != p ==> procs[k] == old(procs)[k])
      ensures !ok ==> procs == old(procs) && drops == old(drops) && mem.kmem.FreeSet() == old(mem.kmem.FreeSet())
      ensures ok <==> args && (forall g :: g in segs ==> !g.Refused())
                      && |old(mem.kmem.FreeSet())| >= Cost(mem.kmap, 1, Pages(Peak(segs)) + 2)
      ensures ok ==> procs[p].phase == Live && procs[p].sz == (Pages(Peak(segs)) + 2) * PGSIZE
      ensures ok ==> procs[p].shared == Cleared() && drops == DroppedBy(old(procs)[p].shared, old(drops))
      ensures ok ==> Shaped(mem.Now()) && procs[p].pgdir in mem.spaces
      ensures ok ==> Guarding(mem.Now(), procs[p].pgdir, Pages(procs[p].sz))
    {
      hide Valid, Memory.Valid, Pte, Shaped, Built, Torn, SameAll, ProcsOk, OthersSame, FramesHeld, Counted,
           Balanced, DataKept, Exactly, Cost, KmapOk, Grown, Guarding, KernelMapped, Wide, ProcOk, Peak,
           Segment.Refused, Low;
      Parts();
      ghost var s0, free0, was := mem.Now(), mem.kmem.FreeSet(), procs;
      mem.KmapIsOk();
      assert Balanced(mem.managed, s0.owner.Keys, free0) by { mem.IsBalanced(); }
      AccessReady(s0, frames, torn, procs, p);
      CostLeast(mem.kmap, 1, Pages(Peak(segs)) + 2);
      CostMono(mem.kmap, 1, Pages(Peak(segs)), Pages(Peak(segs)) + 2);
      var d := mem.Setupkvm();
      if d == 0 {
        SameKeeps(s0, mem.Now(), frames);
        SameProcs(s0, mem.Now(), frames, torn, procs);
        Whole();
        return false;
      }
      GrownStart(s0, mem.Now(), mem.kmap, d);
      var sz := Load(d, segs, s0, free0);
      if sz == 0 {
        GiveUp(d, s0, free0);
        return false;
      }
      sz := Pages(sz) * PGSIZE;
      Rounded(s0, mem.Now(), mem.kmap, d, Peak(segs));
      sz := GrowTo(d, sz, sz + 2 * PGSIZE, s0, free0);
      if sz == 0 {
        GiveUp(d, s0, free0);
        return false;
      }
      ghost var s1 := mem.Now();
      GrownAt(s0, s1, mem.kmap, d, sz);
      mem.Clearpteu(d, sz / PGSIZE - 2);
      GuardKeeps(s0, s1, mem.Now(), mem.kmap, d, sz);
      if !args {
        GiveUp(d, s0, free0);
        return false;
      }
      Replace(p, d, sz, s0);
      ok := true;
    }

    /** The end of exec: the new space takes the place of the old one. */
    method Replace(p: nat, d: nat, sz: nat, ghost s0: Store)
      requires mem.Valid() && mem.top == LIMIT && Shaped(mem.Now()) && d in mem.spaces && Shaped(s0)
      requires Built(s0, mem.Now(), d)
      requires FramesHeld(s0, frames) && ProcsOk(s0, frames, torn, procs)
      requires |frames| == |counts| == |drops| == NSHAREPAGE && Wide(procs) && (!torn ==> Counted(procs, counts, drops))
      requires p < |procs| && procs[p].phase == Live && sz <= LIMIT * PGSIZE && Guarding(mem.Now(), d, Pages(sz))
      requires d != 0 && forall w :: LIMIT <= w < KERNPAGE ==> Pte(mem.Now(), d, w) == Absent
      modifies this`procs, this`drops, mem, mem.kmem
      ensures Valid() && Shaped(mem.Now()) && d in mem.spaces && Guarding(mem.Now(), d, Pages(sz))
      ensures procs == old(procs)[p := Proc(Live, d, sz, Cleared())] && |old(procs)[p].shared| == NSHAREPAGE
      ensures drops == DroppedBy(old(procs)[p].shared, old(drops))
    {
      hide Valid, Memory.Valid, Pte, Shaped, Built, Torn, ProcsOk, OthersSame, FramesHeld, Counted, DataKept,
           Guarding, Wide, ProcOk;
      ghost var s2, was := mem.Now(), procs;
      AccessReady(s0, frames, torn, procs, p);
      BuiltKeeps(s0, s2, frames, d);
      var oldpgdir := procs[p].pgdir;
      BuiltAt(s0, s2, oldpgdir, d);
      GuardMapped(s2, d, Pages(sz));
      procs := procs[p := Proc(Live, d, sz, Cleared())];
      drops := DroppedBy(was[p].shared, drops);
      ExecGives(s0, s2, frames, torn, was, p, d, sz);
      ExecDrops(was, p, procs[p], counts, old(drops), torn);
      ExecOld(s0, frames, torn, was, procs, p, d);
      mem.Freevm(oldpgdir);
      mem.IsShaped();
      TornKeeps(s2, mem.Now(), frames, oldpgdir);
      ProcsWithout(s2, mem.Now(), frames, torn, procs, oldpgdir);
      GuardOther(s2, mem.Now(), d, oldpgdir, Pages(sz));
      Whole();
    }

    /** The loop of exec over the program headers; 0 for its `goto bad`. */
    method Load(d: nat, segs: seq<Segment>, ghost s0: Store, ghost free0: set<nat>) returns (sz: nat)
      requires mem.Valid() && mem.top == LIMIT && Shaped(mem.Now()) && Grown(s0, mem.Now(), mem.kmap, d, PGSIZE)
      requires Balanced(mem.managed, s0.owner.Keys, free0)
      requires forall g :: g in segs ==> Low(g)
      modifies mem`owner, mem`tables, mem`data, mem.kmem
      ensures mem.Valid() && Shaped(mem.Now()) && d in mem.spaces && Shaped(s0) && Built(s0, mem.Now(), d)
      ensures sz != 0 ==> sz == Peak(segs) <= (LIMIT - 2) * PGSIZE && Grown(s0, mem.Now(), mem.kmap, d, sz)
      ensures (exists g :: g in segs && g.Refused()) ==> sz == 0
      ensures sz == 0 ==> (exists g :: g in segs && g.Refused())
                          || |free0| < Cost(mem.kmap, 1, Pages(Peak(segs)))
    {
      hide Memory.Valid, Pte, Shaped, Built, Grown, Exactly, Cost, Balanced, Tight, Peak, Pages, Segment.Refused;
      sz := PGSIZE;
      for i := 0 to |segs|
        invariant mem.Valid() && Shaped(mem.Now()) && Grown(s0, mem.Now(), mem.kmap, d, sz)
        invariant sz == Peak(segs[..i]) <= (LIMIT - 2) * PGSIZE
        invariant forall k :: 0 <= k < i ==> !segs[k].Refused()
      {
        var g := segs[i];
        GrownAt(s0, mem.Now(), mem.kmap, d, sz);
        PeakStep(segs, i);
        SegmentTests(g);
        var fits := g.filesz <= g.memsz && (g.vaddr + g.memsz) % UINT >= g.vaddr;
        var n: nat := 0;
        if fits {
          n := GrowTo(d, sz, g.vaddr + g.memsz, s0, free0);
        }
        if n == 0 || g.vaddr % PGSIZE != 0 || !g.loads {
          PeakCosts(mem.kmap, segs, i);
          return 0;
        }
        sz := n;
      }
      assert segs[..|segs|] == segs;
      GrownAt(s0, mem.Now(), mem.kmap, d, sz);
    }

    /** One call of allocuvm by exec. */
    method GrowTo(d: nat, sz: nat, n: nat, ghost s0: Store, ghost free0: set<nat>) returns (r: nat)
      requires mem.Valid() && mem.top == LIMIT && Shaped(mem.Now()) && Grown(s0, mem.Now(), mem.kmap, d, sz)
      requires Balanced(mem.managed, s0.owner.Keys, free0)
      requires 0 < sz <= LIMIT * PGSIZE && (n < KERNBASE ==> n <= LIMIT * PGSIZE)
      modifies mem`owner, mem`tables, mem`data, mem.kmem
      ensures mem.Valid() && Shaped(mem.Now()) && d in mem.spaces && Shaped(s0) && Built(s0, mem.Now(), d)
      ensures r == 0 || (r == (if n < sz then sz else n) && Grown(s0, mem.Now(), mem.kmap, d, r))
      ensures r != 0 <==> n < KERNBASE && |free0| >= Cost(mem.kmap, 1, Pages(if n < sz then sz else n))
    {
      hide Memory.Valid, Pte, Shaped, Built, Grown, DataKept, Exactly, Tight, Balanced, Cost, GrowCost;
      ghost var s, m := mem.Now(), if n < sz then sz else n;
      GrownAt(s0, s, mem.kmap, d, sz);
      PagesMono(sz, LIMIT);
      if n < KERNBASE { PagesMono(n, LIMIT); }
      PagesOrder(sz, m);
      mem.SpaceCost(d, s0, free0, 1, Pages(sz));
      CostGrows(s, mem.kmap, d, 1, Pages(sz), Pages(m));
      ExactTight(s, mem.kmap, d, 1, Pages(sz));
      if n < sz {
        PagesOrder(n, sz);
        GrowNothing(s, d, Pages(sz), Pages(n));
        GrowNothing(s, d, Pages(sz), Pages(m));
      }
      r := mem.Grow(d, sz, n);
      if r != 0 {
        PagesMono(r, LIMIT);
        GrownStep(s0, s, mem.Now(), mem.kmap, d, sz, r);
      }
    }

    /** The label `bad` of exec. */
    method GiveUp(d: nat, ghost s0: Store, ghost free0: set<nat>)
      requires mem.Valid() && mem.top == LIMIT && Shaped(mem.Now()) && d in mem.spaces && Shaped(s0)
      requires Built(s0, mem.Now(), d)
      requires Balanced(mem.managed, s0.owner.Keys, free0)
      requires FramesHeld(s0, frames) && ProcsOk(s0, frames, torn, procs)
      requires |frames| == |counts| == |drops| == NSHAREPAGE && Wide(procs) && (!torn ==> Counted(procs, counts, drops))
      modifies mem, mem.kmem
      ensures Valid() && mem.kmem.FreeSet() == free0
    {
      hide Valid, Memory.Valid, Pte, Shaped, Built, SameAll, Balanced, DataKept, ProcsOk, Counted, FramesHeld;
      mem.Undo(d, s0, free0);
      mem.IsShaped();
      SameKeeps(s0, mem.Now(), frames);
      SameProcs(s0, mem.Now(), frames, torn, procs);
      Whole();
    }

    /** exit: the process keeps its pages until it is waited for. */
    method Exit(p: nat)
      requires Valid() && p < |procs| && procs[p].phase == Live
      modifies this`procs
      ensures Valid() && procs == old(procs)[p := old(procs)[p].(phase := Zombie)]
    {
      hide Pte, Shaped, Counted, FramesHeld;
      ghost var was := procs;
      procs := procs[p := procs[p].(phase := Zombie)];
      ExitCounts(was, procs, p, counts, drops, torn);
      forall k | 0 <= k < |procs| ensures ProcOk(mem.Now(), frames, torn, procs[k]) {
        assert ProcOk(mem.Now(), frames, torn, was[k]);
      }
    }

    /** wait, when it has found zombie z. */
    method Reap(z: nat)
      requires Valid() && z < |procs| && procs[z].phase == Zombie
      modifies this`procs, this`counts, mem, mem.kmem
      ensures Valid() && |procs| == |old(procs)|
      ensures (forall k :: 0 <= k < |procs| && k != z ==> procs[k] == old(procs)[k])
      ensures procs[z].phase == Unused && procs[z].shared == Cleared()
      ensures forall i :: 0 <= i < NSHAREPAGE ==>
                counts[i] == old(counts)[i] - (if old(procs)[z].shared[i] != 0 then 1 else 0)
    {
      hide Pte, Shaped, Torn, ProcsOk, OthersSame, FramesHeld, Counted, DataKept;
      ghost var s0, was, before := mem.Now(), procs, counts;
      AccessReady(s0, frames, torn, procs, z);
      for i := 0 to NSHAREPAGE
        modifies this`procs, this`counts
        invariant |procs| == |was| && Wide(procs) && |counts| == NSHAREPAGE
        invariant procs == was[z := was[z].(shared := procs[z].shared)]
        invariant forall j :: 0 <= j < NSHAREPAGE ==>
                    && procs[z].shared[j] == (if j < i then 0 else was[z].shared[j])
                    && counts[j] == before[j] - (if j < i && was[z].shared[j] != 0 then 1 else 0)
      {
        if procs[z].shared[i] != 0 {
          procs := procs[z := procs[z].(shared := procs[z].shared[i := 0])];
          counts := counts[i := counts[i] - 1];
        }
      }
      assert procs[z].shared == Cleared();
      var d := procs[z].pgdir;
      ReapReady(s0, frames, torn, was, z);
      mem.Freevm(d);
      TornKeeps(s0, mem.Now(), frames, d);
      procs := procs[z := procs[z].(phase := Unused)];
      ghost var q := procs[z];
      assert procs == was[z := q];
      ReapGives(s0, mem.Now(), frames, torn, was, z, q);
      ReapCounts(was, z, q, before, counts, drops, torn);
    }

    constructor (m: Memory)
      requires m.Valid() && m.top == LIMIT
      ensures mem == m
    {
      mem, procs, frames, counts, drops, torn := m, [], [], [], [], false;
    }

    /** shmem_init, with an empty table of n processes. */
    method Init(n: nat) returns (ok: bool)
      requires mem.Valid() && mem.top == LIMIT
      modifies this, mem, mem.kmem
      ensures ok <==> |old(mem.kmem.FreeSet())| >= NSHAREPAGE
      ensures ok ==> |mem.kmem.FreeSet()| == |old(mem.kmem.FreeSet())| - NSHAREPAGE
      ensures ok ==> Valid() && !torn && |procs| == n && counts == [0, 0, 0, 0] && drops == [0, 0, 0, 0]
      ensures ok ==> forall k :: 0 <= k < n ==> procs[k] == Proc(Unused, 0, 0, Cleared())
    {
      hide Valid, Memory.Valid, Shaped, Sound, SameAll, Pte;
      frames := [];
      for i := 0 to NSHAREPAGE
        modifies this`frames, mem, mem.kmem
        invariant mem.Valid() && mem.top == LIMIT && |frames| == i
        invariant |mem.kmem.FreeSet()| + i == |old(mem.kmem.FreeSet())|
        invariant forall j :: 0 <= j < i ==> frames[j] in mem.owner && mem.owner[frames[j]] == Held
      {
        var f := mem.Alloc();
        if f == 0 {
          return false;
        }
        mem.Put(f, Memset(0));
        frames := frames + [f];
      }
      counts, drops, torn := [0, 0, 0, 0], [0, 0, 0, 0], false;
      procs := seq(n, _ => Proc(Unused, 0, 0, Cleared()));
      mem.IsShaped();
      NothingShared(n);
      Whole();
      ok := true;
    }

    /** In a table of unused slots nothing is shared. */
    lemma NothingShared(n: nat)
      requires mem.Valid() && Shaped(mem.Now()) && |frames| == NSHAREPAGE && !torn
      requires procs == seq(n, _ => Proc(Unused, 0, 0, Cleared())) && counts == [0, 0, 0, 0] && drops == [0, 0, 0, 0]
      ensures Wide(procs) && Counted(procs, counts, drops) && ProcsOk(mem.Now(), frames, torn, procs)
    {
      hide Memory.Valid, Shaped, Pte;
      forall i | 0 <= i < NSHAREPAGE ensures counts[i] == |Users(procs, i)| + drops[i] {
        assert Users(procs, i) == {};
      }
    }

    /** userinit: the first process, one page at address 0; the source panics if
        memory does not suffice. */
    method Userinit(p: nat, code: Page) returns (ok: bool)
      requires Valid() && p < |procs| && procs[p].phase == Unused && !torn
      modifies this`procs, mem, mem.kmem
      ensures |procs| == |old(procs)|
      ensures ok <==> |old(mem.kmem.FreeSet())| >= Cost(mem.kmap, 0, 1)
      ensures ok ==> Valid() && |mem.kmem.FreeSet()| == |old(mem.kmem.FreeSet())| - Cost(mem.kmap, 0, 1)
      ensures ok ==> procs == old(procs)[p := Proc(Live, procs[p].pgdir, PGSIZE, Cleared())]
      ensures ok ==> Shaped(mem.Now()) && procs[p].pgdir in mem.spaces
      ensures ok ==> Exactly(mem.Now(), mem.kmap, procs[p].pgdir, 0, 1)
    {
      hide Pte, Shaped, Built, SameAll, SameOutside, Grew, ProcsOk, OthersSame, FramesHeld, Counted, DataKept,
           KernelMapped, Exactly, Cost, Tight, KmapOk, Balanced, HasTable;
      ghost var s0, free0, was := mem.Now(), mem.kmem.FreeSet(), procs;
      mem.IsShaped();
      mem.KmapIsOk();
      assert Balanced(mem.managed, s0.owner.Keys, free0) by { mem.IsBalanced(); }
      var d := mem.Setupkvm();
      CostLeast(mem.kmap, 0, 1);
      if d == 0 {
        return false;
      }
      ghost var s1, free1 := mem.Now(), mem.kmem.FreeSet();
      ExactBelow(s1, mem.kmap, d, 0, 0);
      ExactTight(s1, mem.kmap, d, 0, 0);
      var f, done := mem.AddPage(d, 0, code, Flags(true, true));
      if !done {
        CopyShort(s1, mem.kmap, d, 0, 0, 1, free1, f);
        return false;
      }
      mem.IsShaped();
      ExactStep(s1, mem.Now(), mem.kmap, d, 0, 0);
      BuiltMore(s0, s1, mem.Now(), d, 0, 1);
      mem.SpaceCost(d, s0, free0, 0, 1);
      ghost var q := Proc(Live, d, PGSIZE, Cleared());
      BootGives(s0, s1, mem.Now(), frames, was, p, d, q);
      ExecDrops(was, p, q, counts, drops, false);
      BootClear(s0, frames, was, p, drops);
      procs := procs[p := Proc(Live, d, PGSIZE, Cleared())];
      ok := true;
    }
  }

  lemma BootGives(s: Store, s1: Store, r: Store, frames: seq<nat>, was: seq<Proc>, p: nat, d: nat, q: Proc)
    requires Shaped(s) && Shaped(s1) && Shaped(r) && |frames| == NSHAREPAGE && ProcsOk(s, frames, false, was)
    requires Built(s, s1, d) && SameOutside(s1, r, d, 0, 1) && Grew(s1, r, d, 0, 1) && FramesHeld(s, frames)
    requires forall w :: 0 <= w < KERNPAGE ==> d in s1.spaces && Pte(s1, d, w) == Absent
    requires d in s1.spaces && p < |was| && was[p].phase == Unused && q == Proc(Live, d, PGSIZE, Cleared())
    ensures ProcsOk(r, frames, false, was[p := q]) && FramesHeld(r, frames)
  {
    hide Pte, Shaped, ProcsOk, ProcOk;
    BuiltMore(s, s1, r, d, 0, 1);
    BuiltKeeps(s, r, frames, d);
    assert SharedOk(r, frames, false, q);
    OnePage();
    BootProc(r, frames, q);
    ProcsKept(s, r, frames, false, false, was, p, d, q);
  }

  lemma OnePage()
    ensures Pages(PGSIZE) == 1
  {
  }

  lemma BootProc(r: Store, frames: seq<nat>, q: Proc)
    requires Shaped(r) && |frames| == NSHAREPAGE && q.phase == Live && q.sz == PGSIZE && q.shared == Cleared()
    requires q.pgdir in r.spaces && SharedOk(r, frames, false, q)
    ensures ProcOk(r, frames, false, q)
  {
    hide Pte, Shaped, SharedOk;
  }

  lemma BootClear(s: Store, frames: seq<nat>, ps: seq<Proc>, p: nat, drops: seq<nat>)
    requires Shaped(s) && |frames| == NSHAREPAGE && ProcsOk(s, frames, false, ps) && p < |ps| && ps[p].phase == Unused
    requires |drops| == NSHAREPAGE
    ensures |ps[p].shared| == NSHAREPAGE && DroppedBy(ps[p].shared, drops) == drops
  {
    assert ProcOk(s, frames, false, ps[p]);
  }

  // ---- runs

  datatype Event =
    | CallAccess(p: nat, n: int)
    | CallFork(p: nat, c: nat)
    | CallExec(p: nat, segs: seq<Segment>, args: bool)
    | CallExit(p: nat)
    | CallWait(z: nat)

  /** Programs stay below the shared pages. */
  predicate Fits(e: Event) {
    e.CallExec? ==> forall g :: g in e.segs ==> Low(g)
  }

  ghost predicate NoneShared(ps: seq<Proc>) {
    forall k :: 0 <= k < |ps| ==> !HasShared(ps[k].shared)
  }

  /** e is a fork that fails while it maps the shared pages. */
  ghost predicate TearingFork(m: SharedMemory, e: Event)
    reads m, m.mem, m.mem.kmem
  {
    && e.CallFork? && e.p < |m.procs| && e.c < |m.procs| && m.procs[e.p].phase == Live && m.procs[e.c].phase == Unused
    && m.ForkTears(e.p)
  }

  /** Any run of calls; those that cannot be made are skipped. No shared frame is
      ever on the free list; and as long as no fork has failed half-way, which
      takes a process with a shared page, a page's count is at least the number of
      processes that have it, and equal to it when nothing calls exec. */
  method Run(m: SharedMemory, events: seq<Event>)
    requires m.Valid() && forall e :: e in events ==> Fits(e)
    modifies m, m.mem, m.mem.kmem
    ensures m.Valid() && m.frames == old(m.frames)
    ensures forall i :: 0 <= i < NSHAREPAGE ==> m.frames[i] !in m.mem.kmem.FreeSet()
    ensures !m.torn ==> forall i :: 0 <= i < NSHAREPAGE ==> m.counts[i] >= |Users(m.procs, i)|
    ensures !m.torn && old(m.drops) == Cleared() && (forall e :: e in events ==> !e.CallExec?) ==>
              forall i :: 0 <= i < NSHAREPAGE ==> m.counts[i] == |Users(m.procs, i)|
    ensures (forall e :: e in events ==> !e.CallAccess?) && old(NoneShared(m.procs)) && !old(m.torn) ==> !m.torn
  {
    hide Shaped, Sound, ProcsOk, FramesHeld, Users, Memory.Valid, NoneShared, TearingFork, Fits;
    for k := 0 to |events|
      invariant m.Valid() && m.frames == old(m.frames)
      invariant (forall e :: e in events ==> !e.CallExec?) ==> m.drops == old(m.drops)
      invariant (forall e :: e in events ==> !e.CallAccess?) && old(NoneShared(m.procs)) && !old(m.torn) ==>
                  NoneShared(m.procs) && !m.torn
    {
      assert events[k] in events;
      if NoneShared(m.procs) { NoneTears(m, events[k]); }
      Call(m, events[k]);
    }
    forall i | 0 <= i < NSHAREPAGE ensures m.frames[i] !in m.mem.kmem.FreeSet() { m.NeverFree(i); }
  }

  lemma NoneTears(m: SharedMemory, e: Event)
    requires NoneShared(m.procs)
    ensures !TearingFork(m, e)
  {
    hide HasShared;
  }

  /** One call: it leaves a flag that nothing counts exactly if it is a fork made
      in the one state in which a fork tears. */
  method Call(m: SharedMemory, e: Event)
    requires m.Valid() && Fits(e)
    modifies m, m.mem, m.mem.kmem
    ensures m.Valid() && m.frames == old(m.frames) && (!e.CallExec? ==> m.drops == old(m.drops))
    ensures m.torn <==> old(m.torn) || old(TearingFork(m, e))
    ensures !e.CallAccess? && old(NoneShared(m.procs)) ==> NoneShared(m.procs)
  {
    hide SharedMemory.Valid, Memory.Valid, Shaped, Sound, ProcsOk, FramesHeld, Counted, Users, Pte, Balanced,
         NoneShared, HasShared, Tears;
    ghost var was := m.procs;
    match e {
      case CallAccess(p, n) =>
        if p < |m.procs| && m.procs[p].phase == Live { var _ := m.Access(p, n); }
      case CallFork(p, c) =>
        if p < |m.procs| && c < |m.procs| && m.procs[p].phase == Live && m.procs[c].phase == Unused {
          ghost var tears := m.ForkTears(p);
          if NoneShared(was) { NoneTears(m, e); }
          var _, _ := m.Fork(p, c);
          if NoneShared(was) { NoneForked(was, m.procs, p, c); }
        }
      case CallExec(p, segs, args) =>
        if p < |m.procs| && m.procs[p].phase == Live {
          var _ := m.Exec(p, segs, args);
          if NoneShared(was) { NoneChanged(was, m.procs, p); }
        }
      case CallExit(p) =>
        if p < |m.procs| && m.procs[p].phase == Live {
          m.Exit(p);
          if NoneShared(was) { NoneChanged(was, m.procs, p); }
        }
      case CallWait(z) =>
        if z < |m.procs| && m.procs[z].phase == Zombie {
          m.Reap(z);
          if NoneShared(was) { NoneChanged(was, m.procs, z); }
        }
    }
  }

  lemma NoneChanged(was: seq<Proc>, ps: seq<Proc>, p: nat)
    requires NoneShared(was) && p < |was| == |ps| && forall k :: 0 <= k < |ps| && k != p ==> ps[k] == was[k]
    requires ps[p].shared == was[p].shared || ps[p].shared == Cleared()
    ensures NoneShared(ps)
  {
    forall k | 0 <= k < |ps| ensures !HasShared(ps[k].shared) {
      assert !HasShared(was[k].shared);
    }
  }

  lemma NoneForked(was: seq<Proc>, ps: seq<Proc>, p: nat, c: nat)
    requires NoneShared(was) && p < |was| == |ps| && c < |was|
    requires forall k :: 0 <= k < |ps| && k != c ==> ps[k] == was[k]
    requires |ps[p].shared| == |ps[c].shared| == |was[c].shared| == NSHAREPAGE && p != c
    requires ps == was || forall i :: 0 <= i < NSHAREPAGE ==>
               ps[c].shared[i] == if ps[p].shared[i] != 0 then ps[p].shared[i] else was[c].shared[i]
    ensures NoneShared(ps)
  {
    assert !HasShared(was[p].shared) && !HasShared(was[c].shared);
    forall k | 0 <= k < |ps| ensures !HasShared(ps[k].shared) {
      assert !HasShared(was[k].shared);
    }
  }

  /** A machine with so many frames from page 1 on, up to its first process. */
  method Boot(frames: nat, data: nat, code: Page) returns (m: SharedMemory, ok: bool)
    requires KERNPAGE + EXTPAGES < data < KERNPAGE + PHYSPAGES
    ensures fresh(m) && fresh(m.mem) && fresh(m.mem.kmem) && m.mem.kmap == KernelMap(data)
    ensures ok <==> frames >= NSHAREPAGE + Cost(KernelMap(data), 0, 1)
    ensures ok ==> m.Valid() && !m.torn && |m.mem.kmem.FreeSet()| == frames - NSHAREPAGE - Cost(KernelMap(data), 0, 1)
    ensures ok ==> |m.procs| == 2 && m.procs[0] == Proc(Live, m.procs[0].pgdir, PGSIZE, Cleared())
    ensures ok ==> m.procs[1].phase == Unused
    ensures ok ==> m.procs[1].shared == m.counts == m.drops == Cleared()
    ensures ok ==> Shaped(m.mem.Now()) && m.procs[0].pgdir in m.mem.spaces
                   && Exactly(m.mem.Now(), m.mem.kmap, m.procs[0].pgdir, 0, 1)
  {
    hide SharedMemory.Valid, Memory.Valid, Shaped, Pte, Balanced, Exactly, Cost, KmapOk, KernelMap;
    var k := new Kalloc.Kmem(1, 1 + frames);
    k.Freerange(PGSIZE, (1 + frames) * PGSIZE);
    assert k.FreeSet() == Interval(1, 1 + frames);
    var mem := new Memory(k, LIMIT, KernelMap(data));
    m := new SharedMemory(mem);
    ok := m.Init(2);
    if ok {
      ok := m.Userinit(0, code);
    }
  }

  /** With exactly so many frames that the first process, after one shmem_access,
      leaves just enough for a copy of itself, its fork tears: two processes are
      flagged as having page 0, and its count is one. */
  method FailingFork(frames: nat, data: nat, code: Page) returns (m: SharedMemory)
    requires KERNPAGE + EXTPAGES < data < KERNPAGE + PHYSPAGES
    requires frames == NSHAREPAGE + Cost(KernelMap(data), 0, 1) + 1 + Cost(KernelMap(data), 1, 1)
    ensures fresh(m) && fresh(m.mem) && fresh(m.mem.kmem) && m.mem.kmap == KernelMap(data)
    ensures m.Valid() && m.torn && |m.procs| == 2 && m.procs[0].phase == Live && m.procs[1].phase == Unused
    ensures m.counts[0] == 1 && Users(m.procs, 0) == {0, 1}
  {
    hide SharedMemory.Valid, Memory.Valid, Shaped, Pte, Balanced, Exactly, HasTable, Cost, KmapOk, KernelMap, Wide,
         ProcsOk, FramesHeld, Counted;
    var ok;
    m, ok := Boot(frames, data, code);
    m.Parts();
    WideAt(m.procs, 0);
    PlaceTable(m.mem.Now(), m.mem.kmap, m.procs[0].pgdir, 0, 1);
    var r := m.Access(0, 0);
    OnePage();
    assert m.procs[0].shared[0] != 0;
    ghost var n;
    ok, n := m.Fork(0, 1);
    m.Parts();
    assert Users(m.procs, 0) == {0, 1};
  }

  function Cleared(): (r: seq<nat>)
    ensures |r| == NSHAREPAGE && forall i :: 0 <= i < NSHAREPAGE ==> r[i] == 0
  {
    [0, 0, 0, 0]
  }

  ghost function DroppedBy(shared: seq<nat>, drops: seq<nat>): (r: seq<nat>)
    requires |shared| == |drops| == NSHAREPAGE
    ensures |r| == NSHAREPAGE
    ensures forall i :: 0 <= i < NSHAREPAGE ==> r[i] == drops[i] + (if shared[i] != 0 then 1 else 0)
  {
    seq(NSHAREPAGE, i requires 0 <= i < NSHAREPAGE => drops[i] + (if shared[i] != 0 then 1 else 0))
  }

  lemma ExecGives(s: Store, r: Store, frames: seq<nat>, torn: bool, was: seq<Proc>, p: nat, d: nat, sz: nat)
    requires Shaped(s) && Shaped(r) && |frames| == NSHAREPAGE && ProcsOk(s, frames, torn, was) && OthersSame(s, r, d)
    requires d !in s.spaces && d in r.spaces && p < |was| && was[p].phase == Live && sz <= LIMIT * PGSIZE
    requires forall w :: 1 <= w < Pages(sz) ==> Pte(r, d, w).Present?
    requires forall w :: LIMIT <= w < KERNPAGE ==> Pte(r, d, w) == Absent
    ensures ProcsOk(r, frames, torn, was[p := Proc(Live, d, sz, Cleared())])
  {
    hide Pte, Shaped, OthersSame;
    var q := Proc(Live, d, sz, Cleared());
    assert SharedOk(r, frames, torn, q);
    assert ProcOk(r, frames, torn, q);
    ProcsKept(s, r, frames, torn, torn, was, p, d, q);
  }

  lemma ExecDrops(was: seq<Proc>, p: nat, q: Proc, counts: seq<int>, drops: seq<nat>, torn: bool)
    requires Wide(was) && p < |was| && q.shared == Cleared() && |drops| == NSHAREPAGE
    requires !torn ==> Counted(was, counts, drops)
    ensures Wide(was[p := q]) && (!torn ==> Counted(was[p := q], counts, DroppedBy(was[p].shared, drops)))
  {
    if !torn {
      forall i | 0 <= i < NSHAREPAGE ensures counts[i] == |Users(was[p := q], i)| + DroppedBy(was[p].shared, drops)[i] {
        UsersSet(was, p, q, i);
      }
    }
  }

  /** Nobody uses the space exec leaves behind. */
  lemma ExecOld(s: Store, frames: seq<nat>, torn: bool, was: seq<Proc>, ps: seq<Proc>, p: nat, d: nat)
    requires Shaped(s) && |frames| == NSHAREPAGE && ProcsOk(s, frames, torn, was) && p < |was| && was[p].phase == Live
    requires d !in s.spaces && |ps| == |was| && ps[p].pgdir == d
    requires forall k :: 0 <= k < |ps| && k != p ==> ps[k] == was[k]
    ensures forall k :: 0 <= k < |ps| && ps[k].phase != Unused ==> ps[k].pgdir != was[p].pgdir
  {
    hide Pte, Shaped;
    assert ProcOk(s, frames, torn, was[p]);
  }

  lemma ExitCounts(was: seq<Proc>, ps: seq<Proc>, p: nat, counts: seq<int>, drops: seq<nat>, torn: bool)
    requires Wide(was) && p < |was| && ps == was[p := was[p].(phase := Zombie)]
    requires !torn ==> Counted(was, counts, drops)
    ensures Wide(ps) && (!torn ==> Counted(ps, counts, drops))
  {
    if !torn {
      forall i | 0 <= i < NSHAREPAGE ensures counts[i] == |Users(ps, i)| + drops[i] { UsersSet(was, p, ps[p], i); }
    }
  }

  lemma ReapReady(s: Store, frames: seq<nat>, torn: bool, ps: seq<Proc>, z: nat)
    requires Shaped(s) && |frames| == NSHAREPAGE && ProcsOk(s, frames, torn, ps) && z < |ps| && ps[z].phase == Zombie
    ensures ps[z].pgdir in s.spaces
  {
    assert ProcOk(s, frames, torn, ps[z]);
  }

  lemma ReapGives(s: Store, r: Store, frames: seq<nat>, torn: bool, was: seq<Proc>, z: nat, q: Proc)
    requires Shaped(s) && Shaped(r) && |frames| == NSHAREPAGE && ProcsOk(s, frames, torn, was) && z < |was|
    requires was[z].phase == Zombie && OthersSame(s, r, was[z].pgdir) && q.phase == Unused && q.shared == Cleared()
    ensures ProcsOk(r, frames, torn, was[z := q])
  {
    hide Pte, Shaped, OthersSame;
    assert ProcOk(s, frames, torn, was[z]);
    ProcsKept(s, r, frames, torn, torn, was, z, was[z].pgdir, q);
  }

  lemma ReapCounts(was: seq<Proc>, z: nat, q: Proc, before: seq<int>, counts: seq<int>, drops: seq<nat>, torn: bool)
    requires Wide(was) && z < |was| && q.shared == Cleared() && |before| == |counts| == |drops| == NSHAREPAGE
    requires !torn ==> Counted(was, before, drops)
    requires forall i :: 0 <= i < NSHAREPAGE ==> counts[i] == before[i] - (if was[z].shared[i] != 0 then 1 else 0)
    ensures Wide(was[z := q]) && (!torn ==> Counted(was[z := q], counts, drops))
  {
    if !torn {
      forall i | 0 <= i < NSHAREPAGE ensures counts[i] == |Users(was[z := q], i)| + drops[i] { UsersSet(was, z, q, i); }
    }
  }

  lemma ForkReady(s: Store, frames: seq<nat>, torn: bool, ps: seq<Proc>, p: nat, c: nat)
    requires Shaped(s) && |frames| == NSHAREPAGE && ProcsOk(s, frames, torn, ps) && p < |ps| && c < |ps|
    requires ps[p].phase == Live && ps[c].phase == Unused
    ensures ps[p].pgdir in s.spaces && ps[p].sz <= LIMIT * PGSIZE && Pages(ps[p].sz) <= LIMIT
    ensures forall w :: 1 <= w < Pages(ps[p].sz) ==> Pte(s, ps[p].pgdir, w).Present?
    ensures |ps[p].shared| == |ps[c].shared| == NSHAREPAGE
    ensures forall i :: 0 <= i < NSHAREPAGE ==> ps[p].shared[i] == 0 || ps[p].shared[i] == Place(i)
    ensures forall i :: 0 <= i < NSHAREPAGE ==> ps[c].shared[i] == 0 || (torn && ps[c].shared[i] == Place(i))
  {
    hide Pte, Shaped;
    assert ProcOk(s, frames, torn, ps[p]) && ProcOk(s, frames, torn, ps[c]);
    PagesMono(ps[p].sz, LIMIT);
  }

  lemma ForkPages(s: Store, data: map<nat, Page>, e: nat, n: nat, want: seq<Content<Page>>)
    requires Shaped(s) && e in s.spaces && n <= |want| && Filled(s, data, e, 1, n, want)
    ensures forall w :: 1 <= w < n ==> Pte(s, e, w).Present?
  {
    hide Pte;
  }

  lemma ForkGives(s: Store, r: Store, frames: seq<nat>, torn: bool, was: seq<Proc>, ps: seq<Proc>, p: nat, c: nat,
                  e: nat, before: seq<int>, counts: seq<int>)
    requires Shaped(s) && Shaped(r) && |frames| == NSHAREPAGE && ProcsOk(s, frames, torn, was) && OthersSame(s, r, e)
    requires e !in s.spaces && e in r.spaces && p < |was| == |ps| && c < |was| && p != c
    requires was[p].phase == Live && was[c].phase == Unused && was[p].sz <= LIMIT * PGSIZE
    requires ps[c] == Proc(Live, e, was[p].sz, ps[c].shared) && forall k :: 0 <= k < |ps| && k != c ==> ps[k] == was[k]
    requires CopiedTo(was[p].shared, was[c].shared, ps[c].shared, before, counts, NSHAREPAGE, true)
    requires forall w :: 1 <= w < Pages(was[p].sz) ==> Pte(r, e, w).Present?
    requires forall i :: 0 <= i < NSHAREPAGE ==>
               Pte(r, e, Place(i)) == if was[p].shared[i] == 0 then Absent else Present(frames[i], Flags(true, true))
    ensures ProcsOk(r, frames, torn, ps)
  {
    hide Pte, Shaped, OthersSame;
    ForkReady(s, frames, torn, was, p, c);
    assert ProcOk(r, frames, torn, ps[c]);
    ProcsKept(s, r, frames, torn, torn, was, c, e, ps[c]);
    assert ps == was[c := ps[c]];
  }

  lemma ForkTorn(s: Store, r: Store, frames: seq<nat>, torn: bool, was: seq<Proc>, ps: seq<Proc>, c: nat,
                 parent: seq<nat>, before: seq<int>, counts: seq<int>, n: nat)
    requires Shaped(s) && Shaped(r) && |frames| == NSHAREPAGE && ProcsOk(s, frames, torn, was) && SameAll(s, r)
    requires c < |was| == |ps| && was[c].phase == Unused && ps[c] == was[c].(shared := ps[c].shared)
    requires forall k :: 0 <= k < |ps| && k != c ==> ps[k] == was[k]
    requires CopiedTo(parent, was[c].shared, ps[c].shared, before, counts, n, false)
    requires forall i :: 0 <= i < NSHAREPAGE ==> parent[i] == 0 || parent[i] == Place(i)
    ensures ProcsOk(r, frames, true, ps)
  {
    hide Pte, Shaped;
    forall k | 0 <= k < |ps| ensures ProcOk(r, frames, true, ps[k]) {
      assert ProcOk(s, frames, torn, was[k]);
    }
  }

  lemma ForkCounts(was: seq<Proc>, ps: seq<Proc>, c: nat, parent: seq<nat>, before: seq<int>, counts: seq<int>,
                   drops: seq<nat>, torn: bool)
    requires Wide(was) && Wide(ps) && c < |was| == |ps| && (!torn ==> Counted(was, before, drops))
    requires forall k :: 0 <= k < |ps| && k != c ==> ps[k] == was[k]
    requires CopiedTo(parent, was[c].shared, ps[c].shared, before, counts, NSHAREPAGE, true)
    requires !torn ==> forall i :: 0 <= i < NSHAREPAGE ==> was[c].shared[i] == 0
    ensures !torn ==> Counted(ps, counts, drops) && ps[c].shared == parent
  {
    if !torn {
      assert ps == was[c := ps[c]];
      forall i | 0 <= i < NSHAREPAGE ensures counts[i] == |Users(ps, i)| + drops[i] { UsersSet(was, c, ps[c], i); }
    }
  }

  lemma ForkUncounted(was: seq<Proc>, ps: seq<Proc>, c: nat, parent: seq<nat>, before: seq<int>, counts: seq<int>,
                      drops: seq<nat>, n: nat, torn: bool)
    requires Wide(was) && Wide(ps) && c < |was| == |ps| && (!torn ==> Counted(was, before, drops))
    requires |drops| == NSHAREPAGE
    requires forall k :: 0 <= k < |ps| && k != c ==> ps[k] == was[k]
    requires n < NSHAREPAGE && CopiedTo(parent, was[c].shared, ps[c].shared, before, counts, n, false) && parent[n] != 0
    requires !torn ==> forall i :: 0 <= i < NSHAREPAGE ==> was[c].shared[i] == 0
    ensures !torn ==> counts[n] == |Users(ps, n)| + drops[n] - 1 && ps[c].shared[n] != 0
  {
    if !torn {
      assert ps == was[c := ps[c]];
      UsersSet(was, c, ps[c], n);
    }
  }

  /** The child's flags and the counts when the parent's first n pages have been
      gone through; after a failure the flag of page n is set as well. */
  ghost predicate CopiedTo(parent: seq<nat>, was: seq<nat>, child: seq<nat>, before: seq<int>, counts: seq<int>, n: nat,
                           ok: bool)
  {
    && |parent| == |was| == |child| == |before| == |counts| == NSHAREPAGE
    && forall i :: 0 <= i < NSHAREPAGE ==>
         && counts[i] == before[i] + (if i < n && parent[i] != 0 then 1 else 0)
         && child[i] == (if (i < n || (i == n && !ok)) && parent[i] != 0 then parent[i] else was[i])
  }

  /** What shmem_access finds out about its process. */
  lemma AccessReady(s: Store, frames: seq<nat>, torn: bool, ps: seq<Proc>, p: nat)
    requires Shaped(s) && |frames| == NSHAREPAGE && ProcsOk(s, frames, torn, ps) && p < |ps| && ps[p].phase != Unused
    ensures |ps[p].shared| == NSHAREPAGE && ps[p].sz < KERNBASE && ps[p].pgdir in s.spaces
    ensures forall n :: 0 <= n < NSHAREPAGE ==>
              if ps[p].shared[n] == 0 then Pte(s, ps[p].pgdir, Place(n)) == Absent
              else
                && ps[p].shared[n] == Place(n)
                && (torn || Pte(s, ps[p].pgdir, Place(n)) == Present(frames[n], Flags(true, true)))
  {
    hide Pte, Shaped;
    assert ProcOk(s, frames, torn, ps[p]);
  }

  lemma SameProcs(s: Store, r: Store, frames: seq<nat>, torn: bool, ps: seq<Proc>)
    requires Shaped(s) && Shaped(r) && |frames| == NSHAREPAGE && ProcsOk(s, frames, torn, ps) && SameAll(s, r)
    ensures ProcsOk(r, frames, torn, ps)
  {
    hide Pte, Shaped;
    forall j | 0 <= j < |ps| ensures ProcOk(r, frames, torn, ps[j]) {
      assert ProcOk(s, frames, torn, ps[j]);
    }
  }

  lemma AccessGives(s: Store, r: Store, frames: seq<nat>, torn: bool, ps: seq<Proc>, p: nat, n: nat)
    requires Shaped(s) && Shaped(r) && |frames| == NSHAREPAGE && ProcsOk(s, frames, torn, ps) && p < |ps|
    requires ps[p].phase != Unused && n < NSHAREPAGE && |ps[p].shared| == NSHAREPAGE
    requires ps[p].pgdir in s.spaces && r.spaces == s.spaces && OthersSame(s, r, ps[p].pgdir)
    requires forall w :: 0 <= w && w != Place(n) ==> Pte(r, ps[p].pgdir, w) == Pte(s, ps[p].pgdir, w)
    requires Pte(r, ps[p].pgdir, Place(n)) == Present(frames[n], Flags(true, true))
    ensures ProcsOk(r, frames, torn, ps[p := ps[p].(shared := ps[p].shared[n := Place(n)])])
  {
    hide Pte, Shaped, OthersSame;
    var q := ps[p].(shared := ps[p].shared[n := Place(n)]);
    assert ProcOk(s, frames, torn, ps[p]);
    assert SharedOk(r, frames, torn, q);
    PagesMono(q.sz, LIMIT);
    assert ProcOk(r, frames, torn, q);
    ProcsKept(s, r, frames, torn, torn, ps, p, q.pgdir, q);
  }

  lemma AccessCounts(ps: seq<Proc>, counts: seq<int>, drops: seq<nat>, p: nat, n: nat, torn: bool)
    requires Wide(ps)
    requires !torn ==> Counted(ps, counts, drops)
    requires p < |ps| && n < NSHAREPAGE == |counts| && ps[p].shared[n] == 0
    ensures !torn ==> Counted(ps[p := ps[p].(shared := ps[p].shared[n := Place(n)])], counts[n := counts[n] + 1], drops)
  {
    if !torn {
      var q := ps[p].(shared := ps[p].shared[n := Place(n)]);
      forall i | 0 <= i < NSHAREPAGE ensures counts[n := counts[n] + 1][i] == |Users(ps[p := q], i)| + drops[i] {
        UsersSet(ps, p, q, i);
      }
    }
  }
}
