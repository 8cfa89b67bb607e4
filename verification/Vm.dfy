/** Address spaces: the page-table code of vm.c over the page allocator. */
module Vm {
  import opened FrameCounts
  import opened PageTables
  import opened Params
  import Kalloc

  type Page = seq<int>

  const EXTPAGES: nat := 0x100
  const PHYSPAGES: nat := 0xE000
  const DEVPAGE: nat := 0xF_E000

  /** The table kmap of vm.c; `data` is the first page of kernel data. */
  function KernelMap(data: nat): (km: seq<Kmap>)
    requires KERNPAGE + EXTPAGES < data < KERNPAGE + PHYSPAGES
    ensures KmapOk(km)
  {
    [ Kmap(KERNPAGE, EXTPAGES, 0, Flags(true, false)),
      Kmap(KERNPAGE + EXTPAGES, data - KERNPAGE - EXTPAGES, EXTPAGES, Flags(false, false)),
      Kmap(data, KERNPAGE + PHYSPAGES - data, data - KERNPAGE, Flags(true, false)),
      Kmap(DEVPAGE, VPAGES - DEVPAGE, DEVPAGE, Flags(true, false)) ]
  }

  /** The first n ranges of the kernel's table are mapped in d. */
  ghost predicate KernelMapped(s: Store, km: seq<Kmap>, d: nat, n: nat)
    requires Shaped(s) && d in s.spaces && n <= |km|
  {
    forall k, w :: 0 <= k < n && km[k].virt <= w < km[k].virt + km[k].pages ==>
      Pte(s, d, w) == Present(km[k].frame + (w - km[k].virt), km[k].flags)
  }

  /** V2P: where the kernel finds physical memory, and the devices where they are. */
  function PhysicalPage(w: nat): nat
    requires KERNPAGE <= w
  {
    if w < DEVPAGE then w - KERNPAGE else w
  }

  /** What the kernel's mappings are for. It reaches every frame below PHYSTOP at a
      fixed distance, and the devices in place; it cannot write its own code; user
      code reaches none of it; and nothing else above KERNBASE is mapped. */
  lemma KernelReaches(s: Store, data: nat, d: nat, w: nat)
    requires KERNPAGE + EXTPAGES < data < KERNPAGE + PHYSPAGES && KERNPAGE <= w
    requires Shaped(s) && d in s.spaces
    requires Exactly(s, KernelMap(data), d, 0, 0) && KernelMapped(s, KernelMap(data), d, 4)
    ensures Pte(s, d, w).Present? <==> w < KERNPAGE + PHYSPAGES || DEVPAGE <= w < VPAGES
    ensures Pte(s, d, w).Present? ==>
              && Pte(s, d, w).frame == PhysicalPage(w) && !Pte(s, d, w).flags.u
              && (Pte(s, d, w).flags.w <==> !(KERNPAGE + EXTPAGES <= w < data))
  {
    hide Pte, Shaped, Tight;
    var km := KernelMap(data);
    assert InKernel(km, 4, w) <==> (exists j :: 0 <= j < 4 && km[j].virt <= w < km[j].virt + km[j].pages);
    if w < KERNPAGE + EXTPAGES { assert km[0].virt <= w < km[0].virt + km[0].pages; }
    else if w < data { assert km[1].virt <= w < km[1].virt + km[1].pages; }
    else if w < KERNPAGE + PHYSPAGES { assert km[2].virt <= w < km[2].virt + km[2].pages; }
    else if DEVPAGE <= w < VPAGES { assert km[3].virt <= w < km[3].virt + km[3].pages; }
  }

  lemma KernelMappedNone(s: Store, km: seq<Kmap>, d: nat)
    requires Shaped(s) && d in s.spaces
    ensures KernelMapped(s, km, d, 0)
  {
  }

  lemma KernelMappedStep(s: Store, r: Store, km: seq<Kmap>, d: nat, k: nat)
    requires Shaped(s) && Shaped(r) && d in s.spaces && d in r.spaces && k < |km| && KmapOk(km)
    requires KernelMapped(s, km, d, k) && SameOutside(s, r, d, km[k].virt, km[k].virt + km[k].pages)
    requires forall w :: km[k].virt <= w < km[k].virt + km[k].pages ==>
               Pte(r, d, w) == Present(km[k].frame + (w - km[k].virt), km[k].flags)
    ensures KernelMapped(r, km, d, k + 1)
  {
    forall i, w | 0 <= i < k && km[i].virt <= w < km[i].virt + km[i].pages
      ensures Pte(r, d, w) == Present(km[i].frame + (w - km[i].virt), km[i].flags)
    {
      assert w < km[k].virt;
    }
  }

  lemma SameSets(managed: set<nat>, used: set<nat>, free: set<nat>, free': set<nat>)
    requires Balanced(managed, used, free) && Balanced(managed, used, free')
    ensures free == free'
  {
    assert free == managed - used && free' == managed - used;
  }

  /** One past the last page that the bytes va to va + size - 1 touch. */
  function EndPage(va: nat, size: nat): (e: nat)
    requires size >= 1
    ensures va / PGSIZE < e && (e - 1) * PGSIZE <= va + size - 1 < e * PGSIZE
  {
    (va + size - 1) / PGSIZE + 1
  }

  lemma Aligned(v: nat, n: nat)
    requires n >= 1
    ensures v * PGSIZE / PGSIZE == v && EndPage(v * PGSIZE, n * PGSIZE) == v + n
  {
  }

  /** The bytes of a frame. */
  function ContentOf(data: map<nat, Page>, f: nat): Page {
    if f in data then data[f] else Memset(1)
  }

  /** The pages of space d from lo up to n: bytes and flags. */
  ghost function Image(s: Store, data: map<nat, Page>, d: nat, lo: nat, n: nat): (r: seq<Content<Page>>)
    requires Shaped(s) && d in s.spaces && forall w :: lo <= w < n ==> Pte(s, d, w).Present?
    ensures |r| == n
    ensures forall w :: lo <= w < n ==>
              r[w] == Content(ContentOf(data, Pte(s, d, w).frame), Pte(s, d, w).flags)
  {
    seq(n, w requires 0 <= w < n =>
      if w < lo then Content(Memset(0), Flags(false, false))
      else Content(ContentOf(data, Pte(s, d, w).frame), Pte(s, d, w).flags))
  }

  /** What a mapped page holds, and how. */
  ghost function PageAt(s: Store, data: map<nat, Page>, d: nat, w: nat): Content<Page>
    requires Shaped(s) && d in s.spaces && Pte(s, d, w).Present?
  {
    Content(ContentOf(data, Pte(s, d, w).frame), Pte(s, d, w).flags)
  }

  /** In terms of addresses: every byte of the parent from page lo on is there in the
      copy, on an equal page, and the copy has no page without such a byte. */
  lemma CopiedBytes(s0: Store, m0: map<nat, Page>, d: nat, s: Store, m: map<nat, Page>, km: seq<Kmap>, e: nat, lo: nat,
                    sz: nat)
    requires Shaped(s0) && Shaped(s) && d in s0.spaces && e in s.spaces
    requires KmapOk(km) && Exactly(s, km, e, lo, Pages(sz))
    requires forall w :: lo <= w < Pages(sz) ==> Pte(s0, d, w).Present?
    requires Filled(s, m, e, lo, Pages(sz), Image(s0, m0, d, lo, Pages(sz)))
    ensures forall a :: lo * PGSIZE <= a < sz ==>
              && ByteMapped(s0, d, a) && ByteMapped(s, e, a)
              && PageAt(s, m, e, a / PGSIZE) == PageAt(s0, m0, d, a / PGSIZE)
    ensures forall w :: 0 <= w < KERNPAGE && Pte(s, e, w).Present? ==> lo <= w && w * PGSIZE < sz
  {
    hide Pte, Shaped, Pages, Exactly, KmapOk;
    forall a: nat | lo * PGSIZE <= a < sz
      ensures ByteMapped(s0, d, a) && ByteMapped(s, e, a)
      ensures PageAt(s, m, e, a / PGSIZE) == PageAt(s0, m0, d, a / PGSIZE)
    {
      BytesCovered(sz, a);
      assert lo <= a / PGSIZE;
    }
    ExactBelow(s, km, e, lo, Pages(sz));
    forall w | 0 <= w < KERNPAGE && Pte(s, e, w).Present? ensures lo <= w && w * PGSIZE < sz { PagesCover(sz, w); }
  }

  lemma BuiltAt(s: Store, r: Store, d: nat, e: nat)
    requires Shaped(s) && Shaped(r) && d in s.spaces
    requires e != 0 ==> Built(s, r, e)
    requires e == 0 ==> SameAll(s, r)
    ensures d in r.spaces && forall w :: 0 <= w ==> Pte(r, d, w) == Pte(s, d, w)
    ensures e != 0 ==> e in r.spaces && d != e && forall g :: g in s.owner ==> g in r.owner
  {
  }

  lemma DataAt(fs: set<nat>, m0: map<nat, Page>, m: map<nat, Page>, f: nat)
    requires DataKept(fs, m0, m) && f in fs
    ensures ContentOf(m, f) == ContentOf(m0, f)
  {
  }

  function Guarded(e: Entry): Entry
    requires e.Present?
  {
    Present(e.frame, Flags(e.flags.w, false))
  }

  lemma GuardSet(s: Store, top: nat, d: nat, v: nat)
    requires Shaped(s) && Sound(s, top) && d in s.spaces && v < top <= KERNPAGE && Pte(s, d, v).Present?
    ensures Pdx(v) < N && HasTable(s, d, v)
    ensures var r := WithEntry(s, d, v, Guarded(Pte(s, d, v)), s.owner);
            Shaped(r) && Sound(r, top) && SameBut(s, r, d, v) && Pte(r, d, v) == Guarded(Pte(s, d, v))
  {
    WalkAt(s, d, v);
    FlagsSet(s, top, d, v, Guarded(Pte(s, d, v)));
  }

  lemma GuardBuilt(s: Store, r: Store, d: nat, v: nat)
    requires Shaped(s) && Shaped(r) && SameBut(s, r, d, v) && r.owner == s.owner
    ensures forall s0: Store :: Shaped(s0) && Built(s0, s, d) ==> Built(s0, r, d)
  {
    hide Shaped, Pte, Built;
    forall s0: Store | Shaped(s0) && Built(s0, s, d) ensures Built(s0, r, d) { BuiltMore(s0, s, r, d, v, v + 1); }
  }

  lemma ResizeGrown(s: Store, r: Store, data: map<nat, Page>, d: nat, lo: nat, hi: nat)
    requires Shaped(s) && Shaped(r) && d in s.spaces && d in r.spaces && lo <= hi
    requires SameOutside(s, r, d, lo, hi) && Grew(s, r, d, lo, hi) && Filled(r, data, d, lo, hi, Fresh(hi))
    ensures forall w :: 0 <= w && !(lo <= w < hi) ==> Pte(r, d, w) == Pte(s, d, w)
    ensures forall w :: lo <= w < hi ==> Pte(r, d, w).Present? && Pte(r, d, w).flags == Flags(true, true)
    ensures forall s0: Store :: Shaped(s0) && Built(s0, s, d) ==> Built(s0, r, d)
  {
    hide Shaped, Pte, Built, Grew;
    forall s0: Store | Shaped(s0) && Built(s0, s, d) ensures Built(s0, r, d) { BuiltMore(s0, s, r, d, lo, hi); }
  }

  lemma ResizeFailed(s: Store, r: Store, d: nat)
    requires Shaped(s) && Shaped(r) && SameAll(s, r) && Grew(s, r, d, 0, 0)
    ensures forall s0: Store :: Shaped(s0) && Built(s0, s, d) ==> Built(s0, r, d)
  {
    hide Shaped, Pte, Built, Grew, SameAll;
    forall s0: Store | Shaped(s0) && Built(s0, s, d) ensures Built(s0, r, d) { BuiltSame(s0, s, r, d); }
  }

  lemma ResizeShrunk(s: Store, r: Store, d: nat, lo: nat, hi: nat)
    requires Shaped(s) && Shaped(r) && d in s.spaces && d in r.spaces
    requires SameOutside(s, r, d, lo, hi) && Shrinks(s, r, d, lo, hi)
    ensures forall w :: 0 <= w && !(lo <= w < hi) ==> Pte(r, d, w) == Pte(s, d, w)
    ensures forall s0: Store :: Shaped(s0) && Built(s0, s, d) ==> Built(s0, r, d)
  {
    hide Shaped, Pte, Built, Shrinks;
    forall s0: Store | Shaped(s0) && Built(s0, s, d) ensures Built(s0, r, d) { BuiltMore(s0, s, r, d, lo, hi); }
  }

  /** allocuvm so far: from s0 the pages lo to a - 1 of d have been mapped, fresh,
      and the tables they needed. */
  ghost predicate Growing(s0: Store, s: Store, m0: map<nat, Page>, m: map<nat, Page>, d: nat, lo: nat, a: nat, hi: nat)
  {
    && Shaped(s0) && Shaped(s) && d in s0.spaces && d in s.spaces && (a == lo || a <= hi)
    && SameOutside(s0, s, d, lo, a) && Grew(s0, s, d, lo, a) && DirsGrown(s0, s, d, lo, a)
    && (a <= hi ==> Filled(s, m, d, lo, a, Fresh(hi))) && DataKept(s0.owner.Keys, m0, m)
    && (Tight(s0, d) ==> Tight(s, d))
  }

  lemma GrowingStart(s: Store, m: map<nat, Page>, d: nat, lo: nat, hi: nat)
    requires Shaped(s) && d in s.spaces
    ensures Growing(s, s, m, m, d, lo, lo, hi) && GrowCost(s, d, lo, lo) == 0
  {
    hide Shaped, Pte, DirsGrown, Filled, Grew, SameOutside, DataKept, Tight, GrowCost;
    GrewSelf(s, d, lo);
    DirsGrownNone(s, d, lo);
    GrowNothing(s, d, lo, lo);
    DataSame(s.owner.Keys, m);
    if lo <= hi { FilledNone(s, m, d, lo, Fresh(hi)); }
  }

  lemma GrowingAt(s0: Store, s: Store, m0: map<nat, Page>, m: map<nat, Page>, d: nat, lo: nat, a: nat, hi: nat)
    requires Growing(s0, s, m0, m, d, lo, a, hi) && lo <= a
    ensures Shaped(s0) && Shaped(s) && d in s0.spaces && d in s.spaces && DirsGrown(s0, s, d, lo, a)
    ensures SameOutside(s0, s, d, lo, a) && Grew(s0, s, d, lo, a) && DataKept(s0.owner.Keys, m0, m)
    ensures forall w :: a <= w ==> Pte(s, d, w) == Pte(s0, d, w)
    ensures forall g :: g in s0.owner ==> g in s.owner
  {
    hide Shaped, Pte, DirsGrown, Filled, DataKept, Tight;
    OutsideAt(s0, s, d, lo, a);
    GrewAt(s0, s, d, lo, a);
  }

  lemma GrowingStep(s0: Store, s: Store, r: Store, m0: map<nat, Page>, m: map<nat, Page>, m': map<nat, Page>, d: nat,
                    lo: nat, a: nat, hi: nat, mem: nat)
    requires Growing(s0, s, m0, m, d, lo, a, hi) && lo <= a < hi && Pdx(a) < N && Shaped(s) && Shaped(r)
    requires d in s.spaces && d in r.spaces && mem !in s.owner && m' == m[mem := Memset(0)] && mem in r.owner
    requires SameOutside(s, r, d, a, a + 1) && Grew(s, r, d, a, a + 1)
    requires Pte(r, d, a) == Present(mem, Flags(true, true))
    requires DirsBut(s, r, d, Pdx(a)) && (Tight(s, d) ==> Tight(r, d)) && DataKept(s0.owner.Keys, m0, m')
    ensures Growing(s0, r, m0, m', d, lo, a + 1, hi)
  {
    hide Shaped, Pte, DirsGrown, Filled, Grew, SameOutside, DataKept, Tight, DirsBut, HasDir;
    FilledStep(s, m, r, m', d, lo, a, mem, Fresh(hi));
    GrewStep(s0, s, r, d, lo, a);
    PresentDir(r, d, a);
    DirsGrownStep(s0, s, r, d, lo, a);
  }

  lemma GrowingEnd(s0: Store, s: Store, m0: map<nat, Page>, m: map<nat, Page>, d: nat, lo: nat, a: nat, hi: nat)
    requires Growing(s0, s, m0, m, d, lo, a, hi) && hi <= a && lo <= hi
    ensures a == hi && Shaped(s0) && Shaped(s) && d in s.spaces
    ensures SameOutside(s0, s, d, lo, hi) && Grew(s0, s, d, lo, hi)
    ensures Filled(s, m, d, lo, hi, Fresh(hi)) && DataKept(s0.owner.Keys, m0, m) && (Tight(s0, d) ==> Tight(s, d))
  {
    hide Shaped, Pte, DirsGrown, Filled, Grew, SameOutside, DataKept, Tight;
  }

  lemma FilledPresent(s: Store, m: map<nat, Page>, d: nat, lo: nat, hi: nat, want: seq<Content<Page>>)
    requires Shaped(s) && d in s.spaces && hi <= |want| && Filled(s, m, d, lo, hi, want)
    ensures forall w :: lo <= w < hi ==> Pte(s, d, w).Present?
  {
    hide Shaped, Pte;
  }

  lemma SameSpaces(s: Store, e: nat)
    requires Shaped(s) && e in s.spaces
    ensures SameAll(s, s)
  {
  }

  lemma InRange(km: seq<Kmap>, k: nat, w: nat)
    requires k < |km| && KmapOk(km) && km[k].virt <= w < km[k].virt + km[k].pages
    ensures InKernel(km, |km|, w) && Pdx(w) < N
  {
  }

  lemma ExactTight(s: Store, km: seq<Kmap>, d: nat, lo: nat, n: nat)
    requires Shaped(s) && d in s.spaces && Exactly(s, km, d, lo, n)
    ensures Tight(s, d)
  {
  }

  /** copyuvm so far: from s0 a space e has been built that has the kernel and
      the user pages lo to i - 1, with the contents wanted. */
  ghost predicate Copying(s0: Store, s: Store, m0: map<nat, Page>, m: map<nat, Page>, km: seq<Kmap>, e: nat, lo: nat,
                          i: nat, want: seq<Content<Page>>)
  {
    && Shaped(s0) && Shaped(s) && e != 0 && e in s.spaces && Built(s0, s, e) && Exactly(s, km, e, lo, i)
    && Filled(s, m, e, lo, if i <= |want| then i else |want|, want) && DataKept(s0.owner.Keys, m0, m)
  }

  lemma CopyingStart(s0: Store, s: Store, m0: map<nat, Page>, m: map<nat, Page>, km: seq<Kmap>, e: nat, lo: nat,
                     want: seq<Content<Page>>)
    requires Shaped(s0) && Shaped(s) && e != 0 && e in s.spaces && Built(s0, s, e) && Exactly(s, km, e, 0, 0)
    requires DataKept(s0.owner.Keys, m0, m)
    ensures Copying(s0, s, m0, m, km, e, lo, lo, want)
  {
    hide Built, Shaped, Exactly, DataKept;
    ExactNone(s, km, e, 0, 0, lo, lo);
    FilledStart(s, m, e, lo, want);
  }

  lemma CopyingAt(s0: Store, s: Store, m0: map<nat, Page>, m: map<nat, Page>, km: seq<Kmap>, top: nat, d: nat,
                  e: nat, lo: nat, i: nat, want: seq<Content<Page>>)
    requires Copying(s0, s, m0, m, km, e, lo, i, want) && KmapOk(km) && top <= KERNPAGE && lo <= i < |want| <= top
    requires Shaped(s0) && Sound(s0, top) && d in s0.spaces && forall w :: lo <= w < |want| ==> Pte(s0, d, w).Present?
    requires want == Image(s0, m0, d, lo, |want|)
    ensures Shaped(s) && d in s.spaces && d != e && e in s.spaces && Built(s0, s, e) && Exactly(s, km, e, lo, i)
    ensures Pte(s, d, i).Present? && Pte(s, e, i) == Absent && DataKept(s0.owner.Keys, m0, m)
    ensures want[i] == Content(ContentOf(m, Pte(s, d, i).frame), Pte(s, d, i).flags)
  {
    hide Shaped, Sound, Exactly, Pte, DataKept, Filled, KmapOk;
    BuiltAt(s0, s, d, e);
    ExactBelow(s, km, e, lo, i);
    PteOwner(s0, top, d, i);
    DataAt(s0.owner.Keys, m0, m, Pte(s, d, i).frame);
  }

  lemma CopyingStep(s0: Store, s: Store, r: Store, m0: map<nat, Page>, m: map<nat, Page>, m': map<nat, Page>,
                    km: seq<Kmap>, e: nat, lo: nat, i: nat, want: seq<Content<Page>>, mem: nat)
    requires Copying(s0, s, m0, m, km, e, lo, i, want) && lo <= i < |want| && Shaped(s) && Shaped(r) && e in s.spaces
    requires mem !in s.owner && m' == m[mem := want[i].bytes] && e in r.spaces && mem in r.owner
    requires SameOutside(s, r, e, i, i + 1) && Grew(s, r, e, i, i + 1) && Pte(r, e, i) == Present(mem, want[i].flags)
    requires Tight(s, e) ==> Tight(r, e)
    ensures Copying(s0, r, m0, m', km, e, lo, i + 1, want)
  {
    hide Shaped, Exactly, Pte, DataKept, Filled, Tight, Built, SameOutside, Grew;
    ExactTight(s, km, e, lo, i);
    ExactStep(s, r, km, e, lo, i);
    FilledStep(s, m, r, m', e, lo, i, mem, want);
    BuiltMore(s0, s, r, e, i, i + 1);
    BuiltKeys(s0, s, e);
    DataPut(s0.owner.Keys, m0, m, mem, want[i].bytes);
  }

  lemma CopyingEnd(s0: Store, s: Store, m0: map<nat, Page>, m: map<nat, Page>, km: seq<Kmap>, e: nat, lo: nat,
                   i: nat, n: nat, want: seq<Content<Page>>)
    requires Copying(s0, s, m0, m, km, e, lo, i, want) && |want| == n <= i && (i == lo || i <= n)
    ensures Shaped(s0) && Shaped(s) && e in s.spaces && Built(s0, s, e) && Exactly(s, km, e, lo, n)
    ensures Filled(s, m, e, lo, n, want) && DataKept(s0.owner.Keys, m0, m)
  {
    hide Shaped, Exactly, DataKept, Filled, Built;
    if i != n { ExactNone(s, km, e, lo, i, lo, n); }
  }

  lemma CopyFailed(s0: Store, s: Store, s1: Store, e: nat, mem: nat)
    requires Shaped(s0) && Shaped(s) && Shaped(s1) && Built(s0, s, e)
    requires if mem == 0 then s1 == s else SameAll(s, s1) && mem !in s.owner && s1.owner == s.owner[mem := Held]
    ensures mem == 0 ==> Built(s0, s1, e)
    ensures mem != 0 ==> mem !in s0.owner
    ensures mem != 0 ==>
              forall r: Store :: Shaped(r) && r.owner == s1.owner - {mem} && SameAll(s1, r) ==> Built(s0, r, e)
  {
    if mem != 0 {
      forall r: Store | Shaped(r) && r.owner == s1.owner - {mem} && SameAll(s1, r)
        ensures Built(s0, r, e)
      {
        assert r.owner == s.owner;
      }
    }
  }

  /** In terms of addresses: of the pages with bytes below oldsz, those with bytes
      below newsz are kept and the others are gone. */
  lemma ShrunkTo(s: Store, r: Store, d: nat, newsz: nat, oldsz: nat)
    requires Shaped(s) && Shaped(r) && d in s.spaces && d in r.spaces && newsz < oldsz
    requires SameOutside(s, r, d, Pages(newsz), Pages(oldsz))
    requires forall w :: Pages(newsz) <= w < Pages(oldsz) ==> Pte(r, d, w) == Absent
    ensures forall w :: 0 <= w && w * PGSIZE < oldsz ==>
              Pte(r, d, w) == if w * PGSIZE < newsz then Pte(s, d, w) else Absent
  {
    hide Pte, Shaped, Pages;
    forall w: nat | w * PGSIZE < oldsz
      ensures Pte(r, d, w) == if w * PGSIZE < newsz then Pte(s, d, w) else Absent
    {
      PagesCover(newsz, w);
      PagesCover(oldsz, w);
    }
  }

  /** In terms of addresses: the bytes a space has gained. */
  lemma GrownTo(r: Store, d: nat, oldsz: nat, newsz: nat)
    requires Shaped(r) && d in r.spaces && forall w :: Pages(oldsz) <= w < Pages(newsz) ==> Pte(r, d, w).Present?
    ensures forall a :: oldsz <= a < newsz ==>
              ByteMapped(r, d, a) || (oldsz > 0 && a / PGSIZE == (oldsz - 1) / PGSIZE)
  {
    hide Pte, Shaped, Pages;
    forall a: nat | oldsz <= a < newsz
      ensures ByteMapped(r, d, a) || (oldsz > 0 && a / PGSIZE == (oldsz - 1) / PGSIZE)
    {
      BytesCovered(oldsz, a);
      BytesCovered(newsz, a);
    }
  }

  lemma BytesMapped(r: Store, d: nat, lo: nat, sz: nat)
    requires Shaped(r) && d in r.spaces && forall w :: lo <= w < Pages(sz) ==> Pte(r, d, w).Present?
    ensures forall a :: lo * PGSIZE <= a < sz ==> ByteMapped(r, d, a)
  {
    hide Pte, Shaped, Pages;
    forall a: nat | lo * PGSIZE <= a < sz ensures ByteMapped(r, d, a) {
      BytesCovered(sz, a);
      assert lo <= a / PGSIZE;
    }
  }

  lemma PagesZero()
    ensures Pages(0) == 0
  {
  }

  lemma DirsThrough(s0: Store, s: Store, r: Store, d: nat, v: nat)
    requires Shaped(s0) && Shaped(s) && d in s0.spaces && d in s.spaces && Pdx(v) < N && s.tables == s0.tables
    requires DirsBut(s, r, d, Pdx(v))
    ensures DirsBut(s0, r, d, Pdx(v)) && (HasTable(s, d, v) <==> HasTable(s0, d, v))
  {
    WalkAt(s0, d, v);
    WalkAt(s, d, v);
  }

  lemma NoTableStill(s: Store, r: Store, d: nat, v: nat)
    requires Shaped(s) && Shaped(r) && d in s.spaces && d in r.spaces && Pdx(v) < N && r.tables == s.tables
    requires !HasTable(r, d, v)
    ensures !HasTable(s, d, v)
  {
    WalkAt(s, d, v);
    WalkAt(r, d, v);
  }

  /** One turn of the loop of mappages keeps a space tight. */
  lemma TightStep(s0: Store, s: Store, r: Store, d: nat, v: nat, ok: bool)
    requires Shaped(s0) && Shaped(s) && Shaped(r) && d in s0.spaces && d in s.spaces && d in r.spaces && Pdx(v) < N
    requires Tight(s0, d) ==> Tight(s, d)
    requires if ok then SameBut(s, r, d, v) && Pte(r, d, v).Present? && DirsBut(s, r, d, Pdx(v))
             else SameAll(s, r) && r.tables == s.tables
    ensures Tight(s0, d) ==> Tight(r, d)
  {
    hide Tight, Pte, DirsBut;
    if Tight(s0, d) {
      if ok {
        TightSet(s, r, d, v);
      } else {
        RootAt(s, d);
        RootAt(r, d);
        TightSame(s, r, d);
      }
    }
  }

  lemma PagesMono(sz: nat, top: nat)
    requires sz <= top * PGSIZE
    ensures Pages(sz) <= top
  {
  }

  lemma PagesOrder(a: nat, b: nat)
    requires a <= b
    ensures Pages(a) <= Pages(b)
  {
  }

  lemma BuiltKeys(s: Store, r: Store, d: nat)
    requires Shaped(s) && Shaped(r) && Built(s, r, d)
    ensures s.owner.Keys <= r.owner.Keys
  {
  }

  /** memset(v, c, PGSIZE) */
  function Memset(c: int): (p: Page)
    ensures |p| == PGSIZE && forall i :: 0 <= i < PGSIZE ==> p[i] == c
  {
    seq(PGSIZE, _ => c)
  }

  /** What allocuvm puts on each page: zeros, PTE_W | PTE_U. */
  ghost function Fresh(n: nat): (r: seq<Content<Page>>)
    ensures |r| == n && forall i :: 0 <= i < n ==> r[i] == Content(Memset(0), Flags(true, true))
  {
    seq(n, _ => Content(Memset(0), Flags(true, true)))
  }

  /** Every managed frame is in use or free, never both. */
  ghost predicate Balanced(managed: set<nat>, used: set<nat>, free: set<nat>) {
    managed == used + free && used !! free
  }

  lemma BalanceFreed(managed: set<nat>, used: set<nat>, free: set<nat>, x: set<nat>)
    requires Balanced(managed, used, free) && x <= used
    ensures Balanced(managed, used - x, free + x)
  {
  }

  lemma FreedNot(managed: set<nat>, used: set<nat>, free: set<nat>, f: nat)
    requires Balanced(managed, used, free) && f in used
    ensures f !in free && f in managed
  {
  }

  /** The frames `fs` have the same contents. */
  ghost predicate DataKept(fs: set<nat>, before: map<nat, Page>, after: map<nat, Page>) {
    forall g :: g in fs ==> (g in after <==> g in before) && (g in after ==> after[g] == before[g])
  }

  lemma DataSame(fs: set<nat>, m: map<nat, Page>)
    ensures DataKept(fs, m, m)
  {
  }

  lemma DataPut(fs: set<nat>, m0: map<nat, Page>, m: map<nat, Page>, f: nat, p: Page)
    requires DataKept(fs, m0, m) && f !in fs
    ensures DataKept(fs, m0, m[f := p])
  {
  }

  lemma DataFreed(fs: set<nat>, m: map<nat, Page>, f: nat, p: Page)
    ensures DataKept(fs - {f}, m, m[f := p])
  {
  }

  lemma DataSub(fs: set<nat>, gs: set<nat>, m0: map<nat, Page>, m1: map<nat, Page>)
    requires fs <= gs && DataKept(gs, m0, m1)
    ensures DataKept(fs, m0, m1)
  {
  }

  lemma DataShrinks(s: Store, r: Store, d: nat, lo: nat, hi: nat, m0: map<nat, Page>, m1: map<nat, Page>,
                    m2: map<nat, Page>)
    requires Shrinks(s, r, d, lo, hi) && DataKept(s.owner.Keys, m0, m1) && DataKept(r.owner.Keys, m1, m2)
    ensures DataKept(r.owner.Keys, m0, m2)
  {
  }

  lemma DataTrans(fs: set<nat>, gs: set<nat>, m0: map<nat, Page>, m1: map<nat, Page>, m2: map<nat, Page>)
    requires fs <= gs && DataKept(fs, m0, m1) && DataKept(gs, m1, m2)
    ensures DataKept(fs, m0, m2)
  {
  }

  class Memory {
    const kmem: Kalloc.Kmem
    /** User pages lie below this page: KERNBASE, or where the shared pages begin. */
    const top: nat
    /** The kernel's mappings, the same in every space. */
    const kmap: seq<Kmap>
    /** Every frame the allocator was given. */
    ghost const managed: set<nat>
    var tables: map<nat, Table>
    var data: map<nat, Page>
    ghost var owner: map<nat, Role>
    ghost var spaces: set<nat>

    ghost function Now(): Store
      reads this
    {
      Store(tables, owner, spaces)
    }

    /** Nothing leaks and nothing is free twice: every managed frame is either on
        the free list or has a role, never both. */
    ghost predicate Valid()
      reads this, kmem
    {
      && kmem.Valid() && top <= KERNPAGE && KmapOk(kmap)
      && Shaped(Now()) && Sound(Now(), top)
      && Balanced(managed, owner.Keys, kmem.FreeSet())
      && (forall f :: f in managed ==> kmem.first <= f < kmem.limit)
    }

    constructor (k: Kalloc.Kmem, userTop: nat, km: seq<Kmap>)
      requires k.Valid() && userTop <= KERNPAGE && KmapOk(km)
      ensures Valid() && kmem == k && top == userTop && kmap == km && managed == k.FreeSet() && spaces == {}
      ensures owner == map[]
    {
      kmem, top, kmap, managed := k, userTop, km, k.FreeSet();
      tables, data, owner, spaces := map[], map[], map[], {};
    }

    lemma IsShaped()
      requires Valid()
      ensures Shaped(Now())
    {
    }

    lemma IsBalanced()
      requires Valid()
      ensures Balanced(managed, owner.Keys, kmem.FreeSet())
    {
    }

    lemma IsSound()
      requires Valid()
      ensures Shaped(Now()) && Sound(Now(), top)
    {
    }

    lemma KmapIsOk()
      requires Valid()
      ensures KmapOk(kmap) && top <= KERNPAGE
    {
    }

    /** A space built since s0 has cost the frames that are gone since. */
    lemma SpaceCost(d: nat, s0: Store, free0: set<nat>, lo: nat, n: nat)
      requires Valid() && Shaped(Now()) && d in spaces && Shaped(s0) && Built(s0, Now(), d)
      requires Balanced(managed, s0.owner.Keys, free0) && Exactly(Now(), kmap, d, lo, n) && n <= top
      ensures |free0| == |kmem.FreeSet()| + Cost(kmap, lo, n)
    {
      hide Valid, Shaped, Sound, Built, Exactly, Tight, KmapOk;
      IsSound();
      KmapIsOk();
      IsBalanced();
      BuiltCount(s0, Now(), d, managed, free0, kmem.FreeSet());
      ExactCount(Now(), kmap, top, d, lo, n);
    }

    /** Memory has run out while range k of the kernel was being mapped. */
    lemma SetupShort(d: nat, s: Store, s0: Store, free0: set<nat>, k: nat)
      requires Valid() && Shaped(Now()) && d in spaces && Shaped(s0) && Built(s0, Now(), d)
      requires Shaped(s) && d in s.spaces && k < |kmap| && Exactly(s, kmap[..k], d, 0, 0)
      requires SameOutside(s, Now(), d, kmap[k].virt, kmap[k].virt + kmap[k].pages)
      requires Balanced(managed, s0.owner.Keys, free0) && kmem.FreeSet() == {} && Tight(Now(), d)
      requires exists w :: kmap[k].virt <= w < kmap[k].virt + kmap[k].pages && !HasTable(Now(), d, w)
      ensures |free0| < Cost(kmap, 0, 0)
    {
      hide Valid, Shaped, Sound, Built, Tight, KmapOk, InKernel, HasTable, Exactly, SameOutside;
      IsSound();
      KmapIsOk();
      IsBalanced();
      var w :| kmap[k].virt <= w < kmap[k].virt + kmap[k].pages && !HasTable(Now(), d, w);
      PartPresent(s, Now(), kmap, d, k);
      InRange(kmap, k, w);
      BuiltCount(s0, Now(), d, managed, free0, kmem.FreeSet());
      NoDir(Now(), d, w);
      PartCount(Now(), kmap, top, d, w);
    }

    lemma Allocator()
      requires Valid()
      ensures kmem.Valid() && KmapOk(kmap) && forall f :: f in managed ==> kmem.first <= f < kmem.limit
    {
    }

    lemma Whole(s: Store)
      requires kmem.Valid() && top <= KERNPAGE && KmapOk(kmap) && s == Now() && Shaped(s) && Sound(s, top)
      requires Balanced(managed, s.owner.Keys, kmem.FreeSet())
      requires forall f :: f in managed ==> kmem.first <= f < kmem.limit
      ensures Valid()
    {
    }

    method Alloc() returns (f: nat)
      requires Valid()
      modifies this`owner, kmem
      ensures Valid() && (f == 0 <==> old(kmem.FreeSet()) == {})
      ensures f == 0 ==> owner == old(owner) && kmem.FreeSet() == {}
      ensures f != 0 ==> f !in old(owner) && owner == old(owner)[f := Held]
      ensures f != 0 ==> old(kmem.FreeSet()) == kmem.FreeSet() + {f} && f !in kmem.FreeSet()
      ensures Shaped(old(Now())) && SameAll(old(Now()), Now())
    {
      hide Shaped, Sound, SameAll;
      SameAllSelf(Now());
      f := kmem.Kalloc();
      assert f == 0 ==> old(kmem.FreeSet()) == {};
      if f != 0 {
        assert f in old(kmem.FreeSet());
        FrameTaken(Now(), top, f);
        owner := owner[f := Held];
      }
    }

    /** kfree of a frame its holder has not mapped. */
    method Release(f: nat)
      requires Valid() && f in owner && owner[f] == Held
      modifies this`owner, this`tables, this`data, kmem
      ensures Valid() && owner == old(owner) - {f} && kmem.FreeSet() == old(kmem.FreeSet()) + {f}
      ensures tables == old(tables) - {f} && data == old(data)[f := Memset(1)]
      ensures Shaped(old(Now())) && SameAll(old(Now()), Now())
    {
      hide Shaped, Sound, SameAll;
      FrameDropped(Now(), top, f);
      kmem.Kfree(f);
      tables, data := tables - {f}, data[f := Memset(1)];
      owner := owner - {f};
    }

    /** walkpgdir: the frame of the page table that holds the entry of page v; 0 if
        there is none and none may or can be allocated. */
    method Walkpgdir(d: nat, v: nat, alloc: bool) returns (t: nat)
      requires Valid() && d in spaces && Pdx(v) < N
      modifies this`owner, this`tables, kmem
      ensures Valid() && Shaped(old(Now())) && SameAll(old(Now()), Now()) && Grows(old(Now()), Now())
      ensures t == 0 ==> owner == old(owner) && tables == old(tables) && kmem.FreeSet() == old(kmem.FreeSet())
                         && !HasTable(Now(), d, v) && (alloc ==> kmem.FreeSet() == {})
      ensures !alloc || HasTable(old(Now()), d, v) ==>
                owner == old(owner) && tables == old(tables) && kmem.FreeSet() == old(kmem.FreeSet())
      ensures t != 0 ==> HasTable(Now(), d, v) && tables[d][Pdx(v)].frame == t
      ensures forall f :: f in owner && f !in old(owner) ==> owner[f] == TableOf(d, Pdx(v))
      ensures t != 0 ==> DirsBut(old(Now()), Now(), d, Pdx(v))
      ensures alloc && t != 0 ==>
                |old(kmem.FreeSet())| == |kmem.FreeSet()| + if old(HasTable(Now(), d, v)) then 0 else 1
    {
      hide Valid, Shaped, Sound, SameAll, HasTable, Balanced;
      IsShaped();
      SameAllSelf(Now());
      WalkAt(Now(), d, v);
      var pde := tables[d][Pdx(v)];
      if pde.Present? {
        t := pde.frame;
        InManaged(t);
      } else if !alloc {
        t := 0;
      } else {
        t := Alloc();
        if t == 0 {
          return;
        }
        ghost var s := Now();
        IsShaped();
        WalkAt(s, d, v);
        AddTable(d, Pdx(v), t);
        IsShaped();
        SameAllTrans(old(Now()), s, Now());
        WalkAt(Now(), d, v);
      }
    }

    /** A frame just allocated becomes page table i of d. */
    method AddTable(d: nat, i: nat, t: nat)
      requires Valid() && d in spaces && i < N && IsTable(Now(), d) && tables[d][i] == Absent && t in owner
      requires owner[t] == Held
      modifies this`owner, this`tables
      ensures Valid() && Shaped(old(Now())) && SameAll(old(Now()), Now()) && t != d
      ensures owner == old(owner)[t := TableOf(d, i)]
      ensures tables == old(tables)[t := Blank()][d := old(tables)[d][i := Present(t, Flags(true, true))]]
    {
      hide Valid, Shaped, Sound, SameAll, Balanced, KmapOk;
      IsSound();
      IsBalanced();
      KmapIsOk();
      Allocator();
      ghost var s := Now();
      TableAddedHere(s, top, d, i, t);
      ghost var keys := owner.Keys;
      tables := tables[t := Blank()];
      tables := tables[d := tables[d][i := Present(t, Flags(true, true))]];
      owner := owner[t := TableOf(d, i)];
      assert owner.Keys == keys;
      Whole(Now());
    }

    /** One turn of the loop in mappages: the entry of page v, which must be
        absent ("remap"), gets frame f. */
    method SetPte(d: nat, v: nat, f: nat, flags: Flags, ghost user: bool) returns (ok: bool)
      requires Valid() && d in spaces && Pdx(v) < N && Pte(Now(), d, v) == Absent
      requires if user then v < top && f in owner && owner[f] == Held else v >= top
      modifies this`owner, this`tables, kmem
      ensures Valid() && Shaped(old(Now())) && d in spaces && OnlyTables(old(Now()), Now(), d, if user then {f} else {})
      ensures !ok ==> SameAll(old(Now()), Now()) && kmem.FreeSet() == {} && owner == old(owner)
      ensures ok ==> SameBut(old(Now()), Now(), d, v) && Pte(Now(), d, v) == Present(f, flags)
      ensures ok && user ==> f in owner && owner[f] == PageOf(d, v)
      ensures !ok ==> tables == old(tables) && !HasTable(Now(), d, v) && old(kmem.FreeSet()) == {}
      ensures ok ==> DirsBut(old(Now()), Now(), d, Pdx(v))
      ensures ok ==> |old(kmem.FreeSet())| == |kmem.FreeSet()| + if old(HasTable(Now(), d, v)) then 0 else 1
    {
      hide Valid, Shaped, Sound, SameAll, SameBut, HasTable, Grows, OnlyTables, Balanced;
      IsShaped();
      var t := Walkpgdir(d, v, true);
      ghost var s := Now();
      IsShaped();
      WalkOnly(old(Now()), s, d, Pdx(v));
      if t == 0 {
        return false;
      }
      WalkAt(s, d, v);
      StorePte(d, v, t, f, flags, user, old(Now()));
      ok := true;
    }

    /** *pte = pa | perm | PTE_P; `s0` is the store before the walk. */
    method StorePte(d: nat, v: nat, t: nat, f: nat, flags: Flags, ghost user: bool, ghost s0: Store)
      requires Valid() && d in spaces && HasTable(Now(), d, v) && tables[d][Pdx(v)].frame == t
      requires Shaped(s0) && SameAll(s0, Now()) && Pte(s0, d, v) == Absent
      requires OnlyTables(s0, Now(), d, if user then {f} else {})
      requires if user then v < top && f in s0.owner && f in owner && owner[f] == Held else v >= top
      modifies this`owner, this`tables
      ensures Valid() && SameBut(s0, Now(), d, v) && Pte(Now(), d, v) == Present(f, flags)
      ensures OnlyTables(s0, Now(), d, if user then {f} else {}) && DirsBut(old(Now()), Now(), d, N)
      ensures user ==> f in owner && owner[f] == PageOf(d, v)
    {
      hide Valid, Shaped, Sound, SameAll, SameBut, OnlyTables, Balanced, KmapOk;
      IsSound();
      IsBalanced();
      KmapIsOk();
      Allocator();
      ghost var s := Now();
      WalkAt(s, d, v);
      ghost var role := if user then owner[f := PageOf(d, v)] else owner;
      SetPteHere(s0, s, top, d, v, f, flags, user);
      assert role.Keys == owner.Keys;
      tables := tables[t := tables[t][Ptx(v) := Present(f, flags)]];
      owner := role;
      Whole(Now());
    }

    /** The loop of mappages over the pages v to v + n - 1; `user` for the single
        page allocuvm and copyuvm map, whose frame changes hands. */
    method MapRange(d: nat, v: nat, n: nat, f: nat, flags: Flags, ghost user: bool) returns (ok: bool)
      requires Valid() && d in spaces && n >= 1 && v + n <= VPAGES
      requires forall w :: v <= w < v + n ==> Pte(Now(), d, w) == Absent
      requires if user then n == 1 && v < top && f in owner && owner[f] == Held else v >= top
      modifies this`owner, this`tables, kmem
      ensures Valid() && Shaped(old(Now())) && d in spaces && SameOutside(old(Now()), Now(), d, v, v + n)
      ensures OnlyTables(old(Now()), Now(), d, if user then {f} else {})
      ensures !ok ==> kmem.FreeSet() == {} && exists w :: v <= w < v + n && !HasTable(Now(), d, w)
      ensures !ok && n == 1 ==> SameAll(old(Now()), Now()) && owner == old(owner) && tables == old(tables)
                                && old(kmem.FreeSet()) == {}
      ensures ok ==> forall w :: v <= w < v + n ==> Pte(Now(), d, w) == Present(f + (w - v), flags)
      ensures ok && user ==> f in owner && owner[f] == PageOf(d, v)
      ensures old(Tight(Now(), d)) ==> Tight(Now(), d)
      ensures ok && n == 1 ==> DirsBut(old(Now()), Now(), d, Pdx(v))
      ensures ok && n == 1 ==> |old(kmem.FreeSet())| == |kmem.FreeSet()| + if old(HasTable(Now(), d, v)) then 0 else 1
    {
      hide Valid, Shaped, Sound, SameAll, SameBut, SameOutside, HasTable, OnlyTables, Tight, DirsBut, Pte, Ranged,
           Balanced, Kalloc.Kmem.FreeSet;
      IsShaped();
      ghost var s0, x := Now(), if user then {f} else {};
      var a, pa, last := v, f, v + n - 1;
      RangedNone(s0, d, v, f, flags, x);
      ghost var s := s0;
      while true
        invariant Valid() && d in spaces && v <= a <= last && pa == f + (a - v) && s == Now()
        invariant Ranged(s0, s, d, v, a, f, flags, x)
        invariant a == v ==> s == s0 && kmem.FreeSet() == old(kmem.FreeSet())
        decreases last - a
      {
        ghost var was := s;
        IsShaped();
        RangedAbsent(s0, was, d, v, a, v + n, f, flags, x);
        ok := SetPte(d, a, pa, flags, user);
        IsShaped();
        s := Now();
        RangedStep(s0, was, s, d, v, a, v + n, f, flags, x, ok);
        if !ok {
          assert v <= a < v + n && !HasTable(s, d, a);
          return;
        }
        if a == last {
          return;
        }
        a, pa := a + 1, pa + 1;
      }
    }

    /** mappages: every page that the bytes va to va + size - 1 touch. */
    method Mappages(d: nat, va: nat, size: nat, f: nat, flags: Flags, ghost user: bool) returns (ok: bool)
      requires Valid() && d in spaces && size >= 1 && va + size <= VPAGES * PGSIZE
      requires forall w :: va / PGSIZE <= w < EndPage(va, size) ==> Pte(Now(), d, w) == Absent
      requires if user then EndPage(va, size) == va / PGSIZE + 1 && va < top * PGSIZE && f in owner && owner[f] == Held
               else va >= top * PGSIZE
      modifies this`owner, this`tables, kmem
      ensures Valid() && Shaped(old(Now())) && d in spaces
      ensures SameOutside(old(Now()), Now(), d, va / PGSIZE, EndPage(va, size))
      ensures OnlyTables(old(Now()), Now(), d, if user then {f} else {})
      ensures !ok ==> kmem.FreeSet() == {} && exists w :: va / PGSIZE <= w < EndPage(va, size) && !HasTable(Now(), d, w)
      ensures !ok && EndPage(va, size) == va / PGSIZE + 1 ==>
                SameAll(old(Now()), Now()) && owner == old(owner) && tables == old(tables) && old(kmem.FreeSet()) == {}
      ensures ok ==> forall w :: va / PGSIZE <= w < EndPage(va, size) ==>
                       Pte(Now(), d, w) == Present(f + (w - va / PGSIZE), flags)
      ensures ok && user ==> f in owner && owner[f] == PageOf(d, va / PGSIZE)
      ensures old(Tight(Now(), d)) ==> Tight(Now(), d)
      ensures ok && EndPage(va, size) == va / PGSIZE + 1 ==> DirsBut(old(Now()), Now(), d, Pdx(va / PGSIZE))
      ensures ok && EndPage(va, size) == va / PGSIZE + 1 ==>
                |old(kmem.FreeSet())| == |kmem.FreeSet()| + if old(HasTable(Now(), d, va / PGSIZE)) then 0 else 1
    {
      hide Valid, Shaped, Sound, SameAll, SameOutside, HasTable, OnlyTables, Tight, Pte, DirsBut;
      IsShaped();
      var a, last := va / PGSIZE, (va + size - 1) / PGSIZE;
      ok := MapRange(d, a, last + 1 - a, f, flags, user);
    }

    /** kfree(v); *pte = 0; for a user page found present. */
    method FreePage(d: nat, v: nat, t: nat)
      requires Valid() && d in spaces && HasTable(Now(), d, v) && v < top && Pte(Now(), d, v).Present?
      requires t == tables[d][Pdx(v)].frame
      modifies this`owner, this`tables, this`data, kmem
      ensures Valid() && Shaped(old(Now())) && d in spaces
      ensures SameBut(old(Now()), Now(), d, v) && Pte(Now(), d, v) == Absent && Shrinks(old(Now()), Now(), d, v, v + 1)
      ensures DataKept(owner.Keys, old(data), data)
    {
      hide Valid, Shaped, Sound, SameBut, HasTable, Shrinks, KmapOk, Balanced, DataKept;
      IsSound();
      IsBalanced();
      Allocator();
      KmapIsOk();
      ghost var s, free := Now(), kmem.FreeSet();
      WalkAt(s, d, v);
      PageFreed(s, top, d, v);
      var f := tables[t][Ptx(v)].frame;
      InManaged(f);
      BalanceFreed(managed, owner.Keys, free, {f});
      FreedNot(managed, owner.Keys, free, f);
      DataFreed(owner.Keys, data, f, Memset(1));
      kmem.Kfree(f);
      tables, data := tables - {f}, data[f := Memset(1)];
      tables := tables[t := tables[t][Ptx(v) := Absent]];
      owner := owner - {f};
      assert tables == old(tables)[t := old(tables)[t][Ptx(v) := Absent]] - {f};
      assert owner.Keys == s.owner.Keys - {f};
      Whole(Now());
    }

    /** deallocuvm.  The jump over an absent page table misses nothing. */
    method Deallocuvm(d: nat, oldsz: nat, newsz: nat) returns (r: nat)
      requires Valid() && d in spaces && oldsz <= top * PGSIZE
      modifies this`owner, this`tables, this`data, kmem
      ensures Valid() && Shaped(old(Now())) && d in spaces
      ensures newsz >= oldsz ==> r == oldsz && Now() == old(Now()) && kmem.FreeSet() == old(kmem.FreeSet())
      ensures newsz < oldsz ==>
                r == newsz && forall w :: Pages(newsz) <= w < Pages(oldsz) ==> Pte(Now(), d, w) == Absent
      ensures forall w :: 0 <= w && w * PGSIZE < oldsz ==>
                Pte(Now(), d, w) == if w * PGSIZE < newsz then old(Pte(Now(), d, w)) else Absent
      ensures SameOutside(old(Now()), Now(), d, Pages(newsz), Pages(oldsz))
      ensures Shrinks(old(Now()), Now(), d, Pages(newsz), Pages(oldsz))
      ensures DataKept(owner.Keys, old(data), data)
    {
      hide Valid, Shaped, Sound, SameBut, HasTable, Shrinks, SameOutside, SameAll, Grows, DataKept, Pte, Balanced,
           KmapOk;
      IsShaped();
      KmapIsOk();
      DataSame(owner.Keys, data);
      ghost var s0 := Now();
      ghost var lo, hi := Pages(newsz), Pages(oldsz);
      ShrinkSelf(s0, d, lo, hi);
      if newsz >= oldsz {
        return oldsz;
      }
      PagesOrder(newsz, oldsz);
      var a := Pages(newsz);
      while a * PGSIZE < oldsz
        invariant Valid() && Shaped(Now()) && d in spaces && lo <= a
        invariant SameOutside(s0, Now(), d, lo, hi) && Shrinks(s0, Now(), d, lo, hi)
        invariant forall w :: lo <= w < a && w < hi ==> Pte(Now(), d, w) == Absent
        invariant DataKept(owner.Keys, old(data), data)
        decreases hi - a
      {
        assert Pdx(a) < N && a < hi;
        ghost var s, data1 := Now(), data;
        IsShaped();
        var t := Walkpgdir(d, a, false);
        WalkAt(s, d, a);
        if t == 0 {
          Skipped(s, d, a);
          a := (Pdx(a) + 1) * N - 1;
        } else if tables[t][Ptx(a)].Present? {
          FreePage(d, a, t);
          IsShaped();
          ShrinkStep(s0, s, Now(), d, lo, a, hi);
          DataShrinks(s, Now(), d, a, a + 1, old(data), data1, data);
        }
        assert SameOutside(s0, Now(), d, lo, hi);
        a := a + 1;
      }
      r := newsz;
      ShrunkTo(s0, Now(), d, newsz, oldsz);
    }

    /** memset or memmove of a whole page. */
    method Put(f: nat, contents: Page)
      requires Valid()
      modifies this`data
      ensures Valid() && data == old(data)[f := contents]
    {
      data := data[f := contents];
    }

    /** kalloc, fill, mappages: the body of the loops of allocuvm and copyuvm.
        When mappages fails the frame is still in the caller's hands. */
    method AddPage(d: nat, a: nat, contents: Page, flags: Flags) returns (mem: nat, ok: bool)
      requires Valid() && d in spaces && a < top && Pte(Now(), d, a) == Absent
      modifies this`owner, this`tables, this`data, kmem
      ensures Valid() && Shaped(old(Now())) && d in spaces
      ensures mem == 0 ==> !ok && Now() == old(Now()) && data == old(data)
      ensures mem == 0 ==> old(kmem.FreeSet()) == kmem.FreeSet() == {}
      ensures mem != 0 ==> mem !in old(owner) && data == old(data)[mem := contents]
      ensures mem != 0 && !ok ==> SameAll(old(Now()), Now()) && owner == old(owner)[mem := Held] && kmem.FreeSet() == {}
      ensures ok ==> SameOutside(old(Now()), Now(), d, a, a + 1) && Grew(old(Now()), Now(), d, a, a + 1)
                     && Pte(Now(), d, a) == Present(mem, flags) && mem in owner
      ensures mem != 0 && !ok ==> old(kmem.FreeSet()) == {mem} && !HasTable(old(Now()), d, a)
      ensures ok && old(Tight(Now(), d)) ==> Tight(Now(), d)
      ensures ok ==> DirsBut(old(Now()), Now(), d, Pdx(a))
      ensures ok ==> |old(kmem.FreeSet())| == |kmem.FreeSet()| + 1 + if HasTable(old(Now()), d, a) then 0 else 1
    {
      hide Valid, Shaped, Sound, SameAll, SameBut, HasTable, OnlyTables, SameOutside, Grew, Tight, Pte, Balanced,
           EndPage, DirsBut;
      IsShaped();
      ghost var s0 := Now();
      mem := Alloc();
      if mem == 0 {
        return mem, false;
      }
      Put(mem, contents);
      ghost var s1 := Now();
      IsShaped();
      SameAllAt(s0, s1, d);
      TightSame(s0, s1, d);
      Aligned(a, 1);
      ok := Mappages(d, a * PGSIZE, PGSIZE, mem, flags, true);
      IsShaped();
      if ok {
        GrewOne(s0, s1, Now(), d, a, mem);
        DirsThrough(s0, s1, Now(), d, a);
      } else {
        SameAllTrans(s0, s1, Now());
        NoTableStill(s0, Now(), d, a);
      }
    }

    /** allocuvm.  `ok` tells the new size 0 from the error 0. */
    method Allocuvm(d: nat, oldsz: nat, newsz: nat) returns (r: nat, ghost ok: bool)
      requires Valid() && d in spaces
      requires newsz < KERNPAGE * PGSIZE ==> newsz <= top * PGSIZE
      requires newsz < KERNPAGE * PGSIZE ==> forall w :: Pages(oldsz) <= w < Pages(newsz) ==> Pte(Now(), d, w) == Absent
      modifies this`owner, this`tables, this`data, kmem
      ensures Valid() && Shaped(old(Now())) && Shaped(Now()) && d in spaces
      ensures newsz >= KERNPAGE * PGSIZE ==> !ok
      ensures newsz < KERNPAGE * PGSIZE && newsz < oldsz ==>
                ok && r == oldsz && Now() == old(Now()) && data == old(data) && kmem.FreeSet() == old(kmem.FreeSet())
      ensures oldsz <= newsz && ok ==>
                && r == newsz && SameOutside(old(Now()), Now(), d, Pages(oldsz), Pages(newsz))
                && Grew(old(Now()), Now(), d, Pages(oldsz), Pages(newsz))
                && Filled(Now(), data, d, Pages(oldsz), Pages(newsz), Fresh(Pages(newsz)))
      ensures oldsz <= newsz < KERNPAGE * PGSIZE ==>
                (ok <==> |old(kmem.FreeSet())| >= GrowCost(old(Now()), d, Pages(oldsz), Pages(newsz)))
      ensures oldsz <= newsz && ok ==>
                |old(kmem.FreeSet())| == |kmem.FreeSet()| + GrowCost(old(Now()), d, Pages(oldsz), Pages(newsz))
      ensures oldsz <= newsz && ok ==> forall a :: oldsz <= a < newsz ==>
                ByteMapped(Now(), d, a) || (oldsz > 0 && a / PGSIZE == (oldsz - 1) / PGSIZE)
      ensures ok && old(Tight(Now(), d)) ==> Tight(Now(), d)
      ensures !ok ==> r == 0 && SameAll(old(Now()), Now()) && Grew(old(Now()), Now(), d, 0, 0)
      ensures DataKept(old(owner).Keys, old(data), data)
    {
      hide Valid, Shaped, Sound, SameAll, SameOutside, Grew, Filled, DataKept, Pte, KmapOk, Tight, HasTable, DirsGrown,
           DirsBut, GrowCost, HasDir, ByteMapped, Growing;
      IsShaped();
      KmapIsOk();
      ghost var s0 := Now();
      ghost var lo, hi := Pages(oldsz), Pages(newsz);
      assert Sound(s0, top) by { IsSound(); }
      SameAllSelf(s0);
      GrewSelf(s0, d, 0);
      DataSame(owner.Keys, data);
      if newsz >= KERNPAGE * PGSIZE {
        return 0, false;
      }
      if newsz < oldsz {
        return oldsz, true;
      }
      var a := Pages(oldsz);
      GrowingStart(s0, data, d, lo, hi);
      while a * PGSIZE < newsz
        invariant Valid() && Shaped(Now()) && d in spaces && lo <= a && (a == lo || a <= hi)
        invariant Growing(s0, Now(), old(data), data, d, lo, a, hi)
        invariant |old(kmem.FreeSet())| == |kmem.FreeSet()| + GrowCost(s0, d, lo, a)
        decreases hi - a
      {
        ghost var s, data1, fr := Now(), data, kmem.FreeSet();
        GrowingAt(s0, s, old(data), data, d, lo, a, hi);
        assert a < hi;
        var mem, done := AddPage(d, a, Memset(0), Flags(true, true));
        IsShaped();
        if mem != 0 { DataPut(s0.owner.Keys, old(data), data1, mem, Memset(0)); }
        GrowMore(s0, d, lo, a);
        GrownDir(s0, s, d, lo, a);
        if !done {
          GrowShort(s0, s, d, lo, a, hi, fr, mem);
          GiveBack(d, oldsz, newsz, a, mem, s0, s, old(data));
          return 0, false;
        }
        GrowingStep(s0, s, Now(), old(data), data1, data, d, lo, a, hi, mem);
        a := a + 1;
      }
      GrowingEnd(s0, Now(), old(data), data, d, lo, a, hi);
      FilledPresent(Now(), data, d, lo, hi, Fresh(hi));
      GrownTo(Now(), d, oldsz, newsz);
      return newsz, true;
    }

    /** What allocuvm does when memory runs out at page a: the pages mapped since
        s0 are freed again, and the frame that could not be mapped. */
    method GiveBack(d: nat, oldsz: nat, newsz: nat, ghost a: nat, mem: nat, ghost s0: Store, ghost s: Store,
                    ghost data0: map<nat, Page>)
      requires Valid() && Shaped(Now()) && d in spaces && Shaped(s0) && Sound(s0, top) && Shaped(s) && d in s0.spaces
      requires oldsz < newsz <= top * PGSIZE && Pages(oldsz) <= a <= Pages(newsz)
      requires SameOutside(s0, s, d, Pages(oldsz), a) && Grew(s0, s, d, Pages(oldsz), a)
      requires if mem == 0 then Now() == s else SameAll(s, Now()) && mem !in s.owner && owner == s.owner[mem := Held]
      requires forall w :: Pages(oldsz) <= w < Pages(newsz) ==> Pte(s0, d, w) == Absent
      requires DataKept(s0.owner.Keys, data0, data)
      modifies this`owner, this`tables, this`data, kmem
      ensures Valid() && Shaped(Now()) && SameAll(s0, Now()) && Grew(s0, Now(), d, 0, 0)
      ensures DataKept(s0.owner.Keys, data0, data)
    {
      hide Valid, Shaped, Sound, SameAll, SameOutside, Grew, Shrinks, DataKept, Pte, KmapOk;
      ghost var s1, data1 := Now(), data;
      ghost var lo, hi := Pages(oldsz), Pages(newsz);
      var x := Deallocuvm(d, newsz, oldsz);
      IsSound();
      FailedGrowth(s0, top, s, s1, Now(), d, lo, a, hi, mem);
      DataTrans(s0.owner.Keys, owner.Keys, data0, data1, data);
      if mem != 0 {
        ghost var s2 := Now();
        DataPut(s0.owner.Keys, data0, data, mem, Memset(1));
        Release(mem);
        IsShaped();
        SameAllTrans(s0, s2, Now());
      }
    }

    /** freevm: every frame of the space goes back to the free list, each once. */
    method Freevm(d: nat)
      requires Valid() && d in spaces
      modifies this, kmem
      ensures Valid() && Shaped(old(Now())) && spaces == old(spaces) - {d} && Torn(old(Now()), Now(), d)
      ensures DataKept(owner.Keys, old(data), data)
    {
      hide Shaped, Sound, SameOutside, Shrinks, DataKept, Balanced, Pte, Torn;
      var x := Deallocuvm(d, top * PGSIZE, 0);
      ghost var s, data1 := Now(), data;
      FreeSpace(d);
      TornDown(old(Now()), s, Now(), d, top, old(data), data1, data);
    }

    /** The rest of freevm, once the user pages are gone. */
    method FreeSpace(d: nat)
      requires Valid() && d in spaces && forall v :: 0 <= v < top ==> Pte(Now(), d, v) == Absent
      modifies this, kmem
      ensures Valid() && Shaped(old(Now())) && spaces == old(spaces) - {d} && Torn(old(Now()), Now(), d)
      ensures DataKept(owner.Keys, old(data), data)
    {
      hide Shaped, Sound, Frames, WithoutSpace, TableFrames, Belongs, DataKept, Balanced, Pte, Torn;
      ghost var s, data1, free1 := Now(), data, kmem.FreeSet();
      RootAt(s, d);
      AllAbsent(s, top, d);
      FramesAre(s, top, d);
      BalanceFreed(managed, owner.Keys, free1, Frames(s, d));
      FreedNot(managed, owner.Keys, free1, d);
      FreeTables(d);
      ghost var keep := s.owner.Keys - Frames(s, d);
      DataSub(keep, s.owner.Keys - TableFrames(s, d, N), data1, data);
      DataPut(keep, data1, data, d, Memset(1));
      assert d !in kmem.FreeSet();
      kmem.Kfree(d);
      tables, data := tables - {d}, data[d := Memset(1)];
      owner, spaces := owner - Frames(s, d), spaces - {d};
      Dropped(s.tables, TableFrames(s, d, N), d);
      assert owner.Keys == keep && kmem.FreeSet() == free1 + Frames(s, d);
      WithoutSpaceIs(s, d);
    }

    /** freevm of a space built since s0 leaves everything as it was then. */
    method Undo(d: nat, ghost s0: Store, ghost free0: set<nat>)
      requires Valid() && d in spaces && Shaped(s0) && Built(s0, Now(), d) && Balanced(managed, s0.owner.Keys, free0)
      modifies this, kmem
      ensures Valid() && owner == s0.owner && spaces == s0.spaces && SameAll(s0, Now()) && kmem.FreeSet() == free0
      ensures DataKept(owner.Keys, old(data), data)
    {
      hide Shaped, Sound, SameAll, Built, Torn, DataKept, Balanced;
      ghost var s1 := Now();
      Freevm(d);
      BuiltTorn(s0, s1, Now(), d);
      SameSets(managed, owner.Keys, kmem.FreeSet(), free0);
    }

    /** The loop of freevm over the page directory. */
    method FreeTables(d: nat)
      requires Valid() && d in spaces && IsTable(Now(), d) && d in owner && owner[d] == Root
      modifies this`tables, this`data, kmem
      ensures kmem.Valid() && kmem.FreeSet() == old(kmem.FreeSet()) + TableFrames(old(Now()), d, N)
      ensures tables == old(tables) - TableFrames(old(Now()), d, N)
      ensures DataKept(owner.Keys - TableFrames(old(Now()), d, N), old(data), data)
    {
      hide Shaped, Sound, TableFrames;
      ghost var s := Now();
      TableFramesNone(s, d);
      for i := 0 to N
        invariant kmem.Valid() && kmem.FreeSet() == old(kmem.FreeSet()) + TableFrames(s, d, i)
        invariant tables == s.tables - TableFrames(s, d, i) && d in tables
        invariant DataKept(owner.Keys - TableFrames(s, d, i), old(data), data)
      {
        TableFrameStep(s, d, i);
        if tables[d][i].Present? {
          var v := tables[d][i].frame;
          kmem.Kfree(v);
          tables, data := tables - {v}, data[v := Memset(1)];
        }
      }
    }

    /** setupkvm: a directory with exactly the kernel's mappings, or, exactly if
        there are not enough frames for it, what was there before. */
    method Setupkvm() returns (d: nat)
      requires Valid()
      modifies this, kmem
      ensures Valid() && Shaped(old(Now())) && Shaped(Now())
      ensures d == 0 <==> |old(kmem.FreeSet())| < Cost(kmap, 0, 0)
      ensures d == 0 ==> owner == old(owner) && SameAll(old(Now()), Now()) && kmem.FreeSet() == old(kmem.FreeSet())
      ensures d != 0 ==> d in spaces && Built(old(Now()), Now(), d) && Exactly(Now(), kmap, d, 0, 0)
                         && KernelMapped(Now(), kmap, d, |kmap|)
                         && |old(kmem.FreeSet())| == |kmem.FreeSet()| + Cost(kmap, 0, 0)
      ensures DataKept(old(owner).Keys, old(data), data)
    {
      hide Valid, Shaped, Sound, SameAll, SameOutside, Built, Torn, OnlyTables, DataKept, Balanced, KernelMapped, Pte,
           HasTable, KmapOk, Exactly, Tight, InKernel;
      IsShaped();
      KmapIsOk();
      ghost var s0, free0 := Now(), kmem.FreeSet();
      assert Balanced(managed, s0.owner.Keys, free0) by { IsBalanced(); }
      DataSame(owner.Keys, data);
      d := NewSpace();
      IsShaped();
      if d == 0 {
        return;
      }
      KernelMappedNone(Now(), kmap, d);
      for k := 0 to |kmap|
        invariant Valid() && Shaped(Now()) && d in spaces && Built(s0, Now(), d) && data == old(data)
        invariant Exactly(Now(), kmap[..k], d, 0, 0) && KernelMapped(Now(), kmap, d, k)
      {
        ghost var s := Now();
        var m := kmap[k];
        KmapAt(kmap, k);
        ExactAbsent(s, kmap, d, k);
        Aligned(m.virt, m.pages);
        ExactTight(s, kmap[..k], d, 0, 0);
        var ok := Mappages(d, m.virt * PGSIZE, m.pages * PGSIZE, m.frame, m.flags, false);
        IsShaped();
        BuiltMore(s0, s, Now(), d, m.virt, m.virt + m.pages);
        if !ok {
          SetupShort(d, s, s0, free0, k);
          Undo(d, s0, free0);
          IsShaped();
          return 0;
        }
        ExactRange(s, Now(), kmap, d, k);
        KernelMappedStep(s, Now(), kmap, d, k);
      }
      assert kmap[..|kmap|] == kmap;
      SpaceCost(d, s0, free0, 0, 0);
    }

    /** kalloc and memset of a page directory. */
    method NewSpace() returns (d: nat)
      requires Valid()
      modifies this`owner, this`tables, this`spaces, kmem
      ensures Valid() && Shaped(old(Now())) && Shaped(Now())
      ensures d == 0 ==> old(kmem.FreeSet()) == {} && owner == old(owner) && SameAll(old(Now()), Now())
                         && kmem.FreeSet() == old(kmem.FreeSet())
      ensures d != 0 ==> d in spaces && Built(old(Now()), Now(), d) && Exactly(Now(), kmap[..0], d, 0, 0)
    {
      hide Valid, Shaped, Sound, SameAll, Built, Balanced, Pte, KmapOk, Exactly;
      IsSound();
      ghost var s0 := Now();
      d := Alloc();
      IsSound();
      if d == 0 {
        return;
      }
      IsBalanced();
      Allocator();
      KmapIsOk();
      BuiltStart(s0, Now(), top, d);
      ghost var keys := owner.Keys;
      tables, owner, spaces := tables[d := Blank()], owner[d := Root], spaces + {d};
      assert owner.Keys == keys;
      Whole(Now());
      ExactNew(Now(), kmap, d);
    }

    /** copyuvm: on success a space of its own with equal bytes and equal flags on
        every page from `lo` up to sz; exactly if there are not enough frames for
        that, nothing has changed. The first page copied is page 0 in project_1
        and page 1 in project_2. */
    method Copyuvm(d: nat, sz: nat, lo: nat) returns (e: nat)
      requires Valid() && d in spaces && sz <= top * PGSIZE
      requires forall w :: lo <= w < Pages(sz) ==> Pte(Now(), d, w).Present?
      modifies this, kmem
      ensures Valid() && Shaped(old(Now())) && Shaped(Now()) && d in spaces
      ensures e == 0 <==> |old(kmem.FreeSet())| < Cost(kmap, lo, Pages(sz))
      ensures e == 0 ==> owner == old(owner) && SameAll(old(Now()), Now()) && kmem.FreeSet() == old(kmem.FreeSet())
      ensures e != 0 ==> e in spaces && e != d && Built(old(Now()), Now(), e) && Exactly(Now(), kmap, e, lo, Pages(sz))
                         && Filled(Now(), data, e, lo, Pages(sz), Image(old(Now()), old(data), d, lo, Pages(sz)))
                         && |old(kmem.FreeSet())| == |kmem.FreeSet()| + Cost(kmap, lo, Pages(sz))
      ensures e != 0 ==> forall a :: lo * PGSIZE <= a < sz ==>
                ByteMapped(old(Now()), d, a) && ByteMapped(Now(), e, a)
                && PageAt(Now(), data, e, a / PGSIZE) == PageAt(old(Now()), old(data), d, a / PGSIZE)
      ensures e != 0 ==> forall w :: 0 <= w < KERNPAGE && Pte(Now(), e, w).Present? ==> lo <= w && w * PGSIZE < sz
      ensures DataKept(old(owner).Keys, old(data), data)
    {
      hide Valid, Shaped, Sound, SameAll, Built, DataKept, Balanced, Filled, KmapOk, Exactly, Pte, Copying,
           KernelMapped, Cost, ByteMapped, PageAt;
      IsShaped();
      KmapIsOk();
      ghost var s0, free0, n := Now(), kmem.FreeSet(), Pages(sz);
      assert Sound(s0, top) && Balanced(managed, s0.owner.Keys, free0) by {
        IsSound();
        IsBalanced();
      }
      PagesMono(sz, top);
      ghost var want := Image(s0, data, d, lo, n);
      e := Setupkvm();
      BuiltAt(s0, Now(), d, e);
      CostLeast(kmap, lo, n);
      if e == 0 {
        return;
      }
      CopyingStart(s0, Now(), old(data), data, kmap, e, lo, want);
      var i := lo;
      while i * PGSIZE < sz
        invariant Valid() && Shaped(Now()) && d in spaces && d != e && lo <= i && (i == lo || i <= n)
        invariant Copying(s0, Now(), old(data), data, kmap, e, lo, i, want)
        decreases n - i
      {
        ghost var s, data1, fr := Now(), data, kmem.FreeSet();
        CopyingAt(s0, s, old(data), data, kmap, top, d, e, lo, i, want);
        SpaceCost(e, s0, free0, lo, i);
        var mem, ok := CopyPage(d, e, i);
        IsShaped();
        if !ok {
          CopyShort(s, kmap, e, lo, i, n, fr, mem);
          CopyFailed(s0, s, Now(), e, mem);
          if mem != 0 { DataPut(s0.owner.Keys, old(data), data1, mem, ContentOf(data1, Pte(s, d, i).frame)); }
          CopyBad(e, mem, s0, free0, old(data));
          return 0;
        }
        CopyingStep(s0, s, Now(), old(data), data1, data, kmap, e, lo, i, want, mem);
        i := i + 1;
      }
      CopyingEnd(s0, Now(), old(data), data, kmap, e, lo, i, n, want);
      SpaceCost(e, s0, free0, lo, n);
      CopiedBytes(s0, old(data), d, Now(), data, kmap, e, lo, sz);
    }

    /** One turn of the loop of copyuvm. */
    method CopyPage(d: nat, e: nat, i: nat) returns (mem: nat, ok: bool)
      requires Valid() && Shaped(Now()) && d in spaces && e in spaces && i < top
      requires Pte(Now(), d, i).Present? && Pte(Now(), e, i) == Absent
      modifies this`owner, this`tables, this`data, kmem
      ensures Valid() && Shaped(old(Now())) && Shaped(Now()) && d in spaces && e in spaces
      ensures mem == 0 ==> !ok && Now() == old(Now()) && data == old(data) && old(kmem.FreeSet()) == {}
      ensures mem != 0 ==> mem !in old(owner)
      ensures mem != 0 ==> data == old(data)[mem := ContentOf(old(data), old(Pte(Now(), d, i)).frame)]
      ensures mem != 0 && !ok ==> SameAll(old(Now()), Now()) && owner == old(owner)[mem := Held]
                                  && old(kmem.FreeSet()) == {mem} && !HasTable(old(Now()), e, i)
      ensures ok ==> SameOutside(old(Now()), Now(), e, i, i + 1) && Grew(old(Now()), Now(), e, i, i + 1)
                     && Pte(Now(), e, i) == Present(mem, old(Pte(Now(), d, i)).flags) && mem in owner
      ensures ok && old(Tight(Now(), e)) ==> Tight(Now(), e)
    {
      hide Valid, Shaped, Sound, SameAll, HasTable, SameOutside, Grew, Tight, Pte, KmapOk;
      KmapIsOk();
      ghost var s := Now();
      WalkAt(s, d, i);
      var t := Walkpgdir(d, i, false);
      var pte := tables[t][Ptx(i)];
      mem, ok := AddPage(e, i, ContentOf(data, pte.frame), pte.flags);
      IsShaped();
    }

    /** The label `bad` of copyuvm, after the kfree of a page left unmapped. */
    method CopyBad(e: nat, mem: nat, ghost s0: Store, ghost free0: set<nat>, ghost data0: map<nat, Page>)
      requires Valid() && Shaped(Now()) && e in spaces && Shaped(s0) && Balanced(managed, s0.owner.Keys, free0)
      requires DataKept(s0.owner.Keys, data0, data)
      requires mem == 0 ==> Built(s0, Now(), e)
      requires mem != 0 ==> mem !in s0.owner && mem in owner && owner[mem] == Held
      requires mem != 0 ==> forall r: Store :: Shaped(r) && r.owner == owner - {mem} && SameAll(Now(), r) ==>
                 Built(s0, r, e)
      modifies this, kmem
      ensures Valid() && Shaped(Now()) && owner == s0.owner && spaces == s0.spaces && SameAll(s0, Now())
      ensures kmem.FreeSet() == free0 && DataKept(s0.owner.Keys, data0, data)
    {
      hide Valid, Shaped, Sound, SameAll, Built, DataKept, Balanced, Pte;
      ghost var s := Now();
      if mem != 0 {
        DataPut(s0.owner.Keys, data0, data, mem, Memset(1));
        SameSpaces(s, e);
        Release(mem);
        IsShaped();
        SameAllAt(s, Now(), e);
      }
      ghost var data2 := data;
      Undo(e, s0, free0);
      IsShaped();
      DataTrans(s0.owner.Keys, owner.Keys, data0, data2, data);
    }

    /** A process writes one of its pages: no other page of any space changes. */
    method UserStore(d: nat, v: nat, bytes: Page)
      requires Valid() && d in spaces && v < top && Pte(Now(), d, v).Present?
      modifies this`data
      ensures Valid() && Now() == old(Now()) && ContentOf(data, Pte(Now(), d, v).frame) == bytes
      ensures forall e, w :: e in spaces && 0 <= w < top && (e != d || w != v) && Pte(Now(), e, w).Present? ==>
                ContentOf(data, Pte(Now(), e, w).frame) == ContentOf(old(data), Pte(Now(), e, w).frame)
    {
      hide Shaped, Sound, Pte, HasTable;
      assert Pdx(v) < N;
      WalkAt(Now(), d, v);
      data := data[tables[tables[d][Pdx(v)].frame][Ptx(v)].frame := bytes];
      forall e, w | e in spaces && 0 <= w < top && (e != d || w != v) && Pte(Now(), e, w).Present?
        ensures ContentOf(data, Pte(Now(), e, w).frame) == ContentOf(old(data), Pte(Now(), e, w).frame)
      {
        PagesApart(Now(), top, d, v, e, w);
      }
    }

    /** allocuvm, in terms of what is mapped: 0 and no change, or the pages from
        the rounded old size to the rounded new one, readable and writable by the
        user. */
    method Grow(d: nat, sz: nat, n: nat) returns (r: nat)
      requires Valid() && Shaped(Now()) && d in spaces && sz > 0
      requires n < KERNPAGE * PGSIZE ==> n <= top * PGSIZE
      requires n < KERNPAGE * PGSIZE ==> forall w :: Pages(sz) <= w < Pages(n) ==> Pte(Now(), d, w) == Absent
      modifies this`owner, this`tables, this`data, kmem
      ensures Valid() && Shaped(old(Now())) && Shaped(Now()) && d in spaces
      ensures r == 0 || r == if n < sz then sz else n
      ensures r != 0 <==> n < KERNPAGE * PGSIZE
                          && |old(kmem.FreeSet())| >= GrowCost(old(Now()), d, Pages(sz), Pages(n))
      ensures r != 0 ==> |old(kmem.FreeSet())| == |kmem.FreeSet()| + GrowCost(old(Now()), d, Pages(sz), Pages(n))
      ensures r != 0 && old(Tight(Now(), d)) ==> Tight(Now(), d)
      ensures forall w :: 0 <= w && !(Pages(sz) <= w < Pages(r)) ==> Pte(Now(), d, w) == old(Pte(Now(), d, w))
      ensures forall w :: Pages(sz) <= w < Pages(r) ==>
                Pte(Now(), d, w).Present? && Pte(Now(), d, w).flags == Flags(true, true)
      ensures forall s0: Store :: Shaped(s0) && Built(s0, old(Now()), d) ==> Built(s0, Now(), d)
      ensures DataKept(old(owner).Keys, old(data), data)
    {
      hide Valid, Shaped, Sound, SameAll, SameOutside, Built, DataKept, Grew, Shrinks, Filled, Pte, KmapOk, GrowCost,
           Tight, ByteMapped;
      ghost var s := Now();
      ghost var ok;
      r, ok := Allocuvm(d, sz, n);
      IsShaped();
      if n < sz {
        PagesOrder(n, sz);
        GrowNothing(s, d, Pages(sz), Pages(n));
      }
      if n >= sz && r != 0 {
        PagesOrder(sz, n);
        ResizeGrown(s, Now(), data, d, Pages(sz), Pages(n));
      } else if r == 0 {
        SameAllAt(s, Now(), d);
        ResizeFailed(s, Now(), d);
      }
    }

    /** One step of growing or shrinking: nothing is left mapped between the
        rounded-up size and `top`. */
    method Resize(d: nat, sz: nat, n: nat) returns (r: nat)
      requires Valid() && Shaped(Now()) && d in spaces && sz <= top * PGSIZE
      requires n < KERNPAGE * PGSIZE ==> n <= top * PGSIZE
      requires forall w :: Pages(sz) <= w < top ==> Pte(Now(), d, w) == Absent
      modifies this`owner, this`tables, this`data, kmem
      ensures Valid() && Shaped(old(Now())) && Shaped(Now()) && d in spaces && (r == n || r == sz) && r <= top * PGSIZE
      ensures forall w :: Pages(r) <= w < top ==> Pte(Now(), d, w) == Absent
      ensures forall w :: 0 <= w < Pages(r) && w < Pages(sz) ==> Pte(Now(), d, w) == old(Pte(Now(), d, w))
      ensures forall w :: Pages(sz) <= w < Pages(r) ==> Pte(Now(), d, w).Present?
      ensures r < n ==> n >= KERNPAGE * PGSIZE || SameAll(old(Now()), Now())
      ensures n <= sz ==> r == n
      ensures n > sz ==> (r == n <==> n < KERNPAGE * PGSIZE
                                      && |old(kmem.FreeSet())| >= GrowCost(old(Now()), d, Pages(sz), Pages(n)))
      ensures r > sz ==> |old(kmem.FreeSet())| == |kmem.FreeSet()| + GrowCost(old(Now()), d, Pages(sz), Pages(n))
      ensures forall s0: Store :: Shaped(s0) && Built(s0, old(Now()), d) ==> Built(s0, Now(), d)
      ensures DataKept(old(owner).Keys * owner.Keys, old(data), data)
    {
      hide Valid, Shaped, Sound, SameAll, SameOutside, Built, DataKept, Grew, Shrinks, Filled, Pte, KmapOk, GrowCost,
           ByteMapped;
      ghost var s := Now();
      r := sz;
      DataSame(owner.Keys * owner.Keys, data);
      if n > sz {
        if n < KERNPAGE * PGSIZE {
          PagesMono(n, top);
        }
        var m, ok := Allocuvm(d, sz, n);
        IsShaped();
        if m != 0 {
          r := m;
          PagesOrder(sz, n);
          ResizeGrown(s, Now(), data, d, Pages(sz), Pages(n));
        } else {
          SameAllAt(s, Now(), d);
          ResizeFailed(s, Now(), d);
        }
        DataSub(old(owner).Keys * owner.Keys, old(owner).Keys, old(data), data);
      } else if n < sz {
        r := Deallocuvm(d, sz, n);
        IsShaped();
        PagesOrder(n, sz);
        PagesMono(sz, top);
        ResizeShrunk(s, Now(), d, Pages(n), Pages(sz));
        DataSub(old(owner).Keys * owner.Keys, owner.Keys, old(data), data);
      }
    }

    /** growproc, for a process whose pages from `lo` up to its size are mapped.
        Shrinking it to exactly nothing frees the pages, but the new size 0 is
        taken for a failure and the old size stays; in every other case the pages
        below the size are mapped afterwards, and in every case none above. */
    method Growproc(d: nat, sz: nat, n: int, ghost lo: nat) returns (r: int, sz': nat)
      requires Valid() && Shaped(Now()) && d in spaces && sz <= top * PGSIZE && -0x8000_0000 <= n < 0x8000_0000
      requires sz + n < KERNPAGE * PGSIZE ==> sz + n <= top * PGSIZE
      requires forall w :: lo <= w < Pages(sz) ==> Pte(Now(), d, w).Present?
      requires forall w :: Pages(sz) <= w < top ==> Pte(Now(), d, w) == Absent
      modifies this`owner, this`tables, this`data, kmem
      ensures Valid() && Shaped(Now()) && d in spaces && sz' <= top * PGSIZE
      ensures (forall w :: lo <= w < Pages(sz') ==> Pte(Now(), d, w).Present?) <==>
              !(n < 0 && sz + n == 0 && lo < Pages(sz))
      ensures forall w :: Pages(sz') <= w < top ==> Pte(Now(), d, w) == Absent
      ensures r == 0 || (r == -1 && sz' == sz)
      ensures n >= 0 && r == 0 ==> sz' == sz + n
      ensures n > 0 ==> (r == 0 <==> sz + n < KERNPAGE * PGSIZE
                                     && |old(kmem.FreeSet())| >= GrowCost(old(Now()), d, Pages(sz), Pages(sz + n)))
      ensures n == 0 ==> r == 0
      ensures forall a :: lo * PGSIZE <= a < sz' && !(n < 0 && sz + n == 0) ==> ByteMapped(Now(), d, a)
      ensures n < 0 && sz + n > 0 ==> r == 0 && sz' == sz + n
      ensures n < 0 && sz + n == 0 ==> r == -1
      ensures n < 0 && sz + n < 0 ==> sz' == sz && (r == 0 <==> sz > 0)
    {
      hide Valid, Shaped, Sound, SameAll, Built, DataKept, Pte, KmapOk, GrowCost, Pages;
      KmapIsOk();
      PagesMono(sz, top);
      if n < 0 && sz + n >= 0 { PagesOrder(sz + n, sz); } else if n > 0 { PagesOrder(sz, sz + n); }
      PagesZero();
      sz' := sz;
      if n > 0 {
        var m := Resize(d, sz, sz + n);
        if m == sz {
          BytesMapped(Now(), d, lo, sz);
          return -1, sz;
        }
        sz' := m;
      } else if n < 0 {
        // sz + n is unsigned: below zero it wraps past the size, and nothing happens
        var newsz := (sz + n) % UINT;
        if newsz >= sz {
          BytesMapped(Now(), d, lo, sz);
          return if sz == 0 then -1 else 0, sz;
        }
        var m := Resize(d, sz, newsz);
        if m == 0 {
          if lo < Pages(sz) { assert Pte(Now(), d, lo) == Absent; }
          return -1, sz;
        }
        sz' := m;
      }
      r := 0;
      BytesMapped(Now(), d, lo, sz');
    }

    /** The life of one address space: built, grown and shrunk in any way, with
        memory running out at any point, and torn down.  Afterwards the free list
        holds exactly the frames it held before. */
    method Lifetime(resizes: seq<nat>)
      requires Valid()
      requires forall i :: 0 <= i < |resizes| && resizes[i] < KERNPAGE * PGSIZE ==> resizes[i] <= top * PGSIZE
      modifies this, kmem
      ensures Valid() && Shaped(old(Now())) && Shaped(Now())
      ensures kmem.FreeSet() == old(kmem.FreeSet()) && owner == old(owner) && SameAll(old(Now()), Now())
      ensures DataKept(old(owner).Keys, old(data), data)
    {
      hide Valid, Shaped, Sound, SameAll, Built, DataKept, Balanced, Pte, KmapOk, Exactly;
      IsShaped();
      KmapIsOk();
      ghost var s0, free0 := Now(), kmem.FreeSet();
      assert Balanced(managed, s0.owner.Keys, free0) by { IsBalanced(); }
      var d := Setupkvm();
      if d == 0 {
        return;
      }
      ExactBelow(Now(), kmap, d, 0, 0);
      var sz: nat := 0;
      for i := 0 to |resizes|
        invariant Valid() && Shaped(Now()) && d in spaces && Built(s0, Now(), d) && sz <= top * PGSIZE
        invariant forall w :: Pages(sz) <= w < top ==> Pte(Now(), d, w) == Absent
        invariant DataKept(old(owner).Keys, old(data), data)
      {
        ghost var s, data1 := Now(), data;
        sz := Resize(d, sz, resizes[i]);
        BuiltKeys(s0, s, d);
        BuiltKeys(s0, Now(), d);
        DataTrans(old(owner).Keys, s.owner.Keys * owner.Keys, old(data), data1, data);
      }
      ghost var data1 := data;
      Undo(d, s0, free0);
      IsShaped();
      DataTrans(old(owner).Keys, owner.Keys, old(data), data1, data);
    }

    /** clearpteu: the page stays mapped where it is, and user code cannot reach it. */
    method Clearpteu(d: nat, v: nat)
      requires Valid() && Shaped(Now()) && d in spaces && v < top && Pte(Now(), d, v).Present?
      modifies this`tables
      ensures Valid() && Shaped(old(Now())) && Shaped(Now()) && SameBut(old(Now()), Now(), d, v)
      ensures var (was, now) := (old(Pte(Now(), d, v)), Pte(Now(), d, v));
              now.Present? && now.frame == was.frame && now.flags.w == was.flags.w && !now.flags.u
      ensures Pte(Now(), d, v) == Guarded(old(Pte(Now(), d, v)))
      ensures forall s0: Store :: Shaped(s0) && Built(s0, old(Now()), d) ==> Built(s0, Now(), d)
    {
      hide Valid, Shaped, Sound, SameBut, Pte, Balanced, KmapOk, HasTable, Built;
      IsSound();
      IsBalanced();
      Allocator();
      KmapIsOk();
      ghost var s := Now();
      WalkAt(s, d, v);
      GuardSet(s, top, d, v);
      var t := tables[d][Pdx(v)].frame;
      tables := tables[t := tables[t][Ptx(v) := Guarded(tables[t][Ptx(v)])]];
      Whole(Now());
      GuardBuilt(s, Now(), d, v);
    }

    lemma InManaged(f: nat)
      requires Valid() && f in owner
      ensures kmem.first <= f < kmem.limit && f > 0
    {
    }
  }

  /** From s0 to s the loop of mappages has mapped the pages v to a - 1 of d. */
  ghost predicate Ranged(s0: Store, s: Store, d: nat, v: nat, a: nat, f: nat, flags: Flags, x: set<nat>) {
    && Shaped(s0) && Shaped(s) && d in s0.spaces && d in s.spaces
    && SameOutside(s0, s, d, v, a) && OnlyTables(s0, s, d, x)
    && (forall w :: v <= w < a ==> Pte(s, d, w) == Present(f + (w - v), flags))
    && (Tight(s0, d) ==> Tight(s, d))
  }

  lemma RangedNone(s: Store, d: nat, v: nat, f: nat, flags: Flags, x: set<nat>)
    requires Shaped(s) && d in s.spaces
    ensures Ranged(s, s, d, v, v, f, flags, x)
  {
    hide Shaped, Pte, Tight;
  }

  lemma RangedAbsent(s0: Store, s: Store, d: nat, v: nat, a: nat, hi: nat, f: nat, flags: Flags, x: set<nat>)
    requires Ranged(s0, s, d, v, a, f, flags, x) && v <= a < hi
    requires Shaped(s0) && d in s0.spaces && forall w :: v <= w < hi ==> Pte(s0, d, w) == Absent
    ensures Shaped(s) && d in s.spaces && Pte(s, d, a) == Absent
  {
    hide Shaped, Pte, Tight;
  }

  lemma RangedStep(s0: Store, s: Store, r: Store, d: nat, v: nat, a: nat, hi: nat, f: nat, flags: Flags, x: set<nat>,
                   ok: bool)
    requires Shaped(s0) && Shaped(s) && Shaped(r) && v <= a < hi && hi <= VPAGES && d in r.spaces
    requires Ranged(s0, s, d, v, a, f, flags, x) && OnlyTables(s, r, d, x)
    requires x == {} || (a == v && hi == v + 1)
    requires a == v ==> s == s0
    requires if ok then SameBut(s, r, d, a) && Pte(r, d, a) == Present(f + (a - v), flags) && DirsBut(s, r, d, Pdx(a))
             else SameAll(s, r) && r.tables == s.tables
    ensures ok ==> Ranged(s0, r, d, v, a + 1, f, flags, x)
    ensures SameOutside(s0, r, d, v, hi) && OnlyTables(s0, r, d, x) && (Tight(s0, d) ==> Tight(r, d))
    ensures ok ==> forall w :: v <= w < a + 1 ==> Pte(r, d, w) == Present(f + (w - v), flags)
  {
    hide Shaped, Tight, DirsBut, Pte;
    assert Pdx(a) < N;
    TightStep(s0, s, r, d, a, ok);
    MapStep(s0, s, r, d, v, a, hi, x, ok);
  }

  lemma MapStep(s0: Store, s: Store, r: Store, d: nat, v: nat, a: nat, hi: nat, x: set<nat>, ok: bool)
    requires Shaped(s0) && Shaped(s) && Shaped(r) && v <= a < hi && d in s0.spaces
    requires SameOutside(s0, s, d, v, a) && OnlyTables(s0, s, d, x) && OnlyTables(s, r, d, x) && (a == v ==> s == s0)
    requires x == {} || (a == v && hi == v + 1)
    requires if ok then SameBut(s, r, d, a) else SameAll(s, r)
    ensures SameOutside(s0, r, d, v, hi) && OnlyTables(s0, r, d, x)
    ensures ok ==> SameOutside(s0, r, d, v, a + 1)
    ensures forall w :: v <= w < a ==> Pte(r, d, w) == Pte(s, d, w)
  {
    hide Shaped, Pte;
  }

  lemma Skipped(s: Store, d: nat, a: nat)
    requires Shaped(s) && d in s.spaces && Pdx(a) < N && !HasTable(s, d, a)
    ensures a <= (Pdx(a) + 1) * N - 1
    ensures forall w :: a <= w < (Pdx(a) + 1) * N ==> Pte(s, d, w) == Absent
  {
    forall w | a <= w < (Pdx(a) + 1) * N ensures Pte(s, d, w) == Absent { NoTableNoPages(s, d, a, w); }
  }

  lemma ShrinkSelf(s: Store, d: nat, lo: nat, hi: nat)
    requires Shaped(s)
    ensures SameOutside(s, s, d, lo, hi) && Shrinks(s, s, d, lo, hi)
  {
  }

  lemma SameAllAt(s: Store, r: Store, d: nat)
    requires Shaped(s) && Shaped(r) && SameAll(s, r) && d in s.spaces
    ensures d in r.spaces && forall w :: 0 <= w ==> Pte(r, d, w) == Pte(s, d, w)
  {
  }

  lemma FilledNone(s: Store, data: map<nat, Page>, d: nat, lo: nat, want: seq<Content<Page>>)
    requires Shaped(s) && d in s.spaces && lo <= |want|
    ensures Filled(s, data, d, lo, lo, want)
  {
  }

  lemma FilledStart(s: Store, data: map<nat, Page>, d: nat, lo: nat, want: seq<Content<Page>>)
    requires Shaped(s) && d in s.spaces
    ensures Filled(s, data, d, lo, if lo <= |want| then lo else |want|, want)
  {
  }

  lemma GrewAt(s: Store, r: Store, d: nat, lo: nat, hi: nat)
    requires Grew(s, r, d, lo, hi)
    ensures forall g :: g in s.owner ==> g in r.owner
  {
  }

  lemma OutsideAt(s: Store, r: Store, d: nat, lo: nat, hi: nat)
    requires Shaped(s) && Shaped(r) && SameOutside(s, r, d, lo, hi) && d in s.spaces
    ensures d in r.spaces && forall w :: 0 <= w && !(lo <= w < hi) ==> Pte(r, d, w) == Pte(s, d, w)
  {
  }

  lemma FailedGrowth(s0: Store, top: nat, s: Store, s1: Store, s2: Store, d: nat, lo: nat, a: nat, hi: nat, mem: nat)
    requires Shaped(s0) && Shaped(s) && Shaped(s1) && Shaped(s2) && d in s0.spaces && d in s2.spaces && lo <= a <= hi
    requires Sound(s0, top) && Sound(s2, top)
    requires SameOutside(s0, s, d, lo, a) && Grew(s0, s, d, lo, a)
    requires if mem == 0 then s1 == s else SameAll(s, s1) && mem !in s.owner && s1.owner == s.owner[mem := Held]
    requires SameOutside(s1, s2, d, lo, hi) && Shrinks(s1, s2, d, lo, hi)
    requires forall w :: lo <= w < hi ==> Pte(s0, d, w) == Absent && Pte(s2, d, w) == Absent
    ensures SameAll(s0, s2) && (mem == 0 ==> Grew(s0, s2, d, 0, 0))
    ensures forall g :: g in s0.owner ==> g in s2.owner && (mem != 0 ==> g != mem)
    ensures mem != 0 ==> mem in s2.owner && s2.owner[mem] == Held
    ensures mem != 0 ==> forall r: Store :: r.owner == s2.owner - {mem} ==> Grew(s0, r, d, 0, 0)
  {
    hide Sound, SameAll, SameOutside, Pte, Shaped;
    AbsentUnowned(s0, top, d, lo, hi);
    AbsentUnowned(s2, top, d, lo, hi);
    FailedSame(s0, s, s1, s2, d, lo, a, hi);
  }

  lemma FailedSame(s0: Store, s: Store, s1: Store, s2: Store, d: nat, lo: nat, a: nat, hi: nat)
    requires Shaped(s0) && Shaped(s) && Shaped(s1) && Shaped(s2) && d in s0.spaces && lo <= a <= hi
    requires SameOutside(s0, s, d, lo, a) && (s1 == s || SameAll(s, s1)) && SameOutside(s1, s2, d, lo, hi)
    requires forall w :: lo <= w < hi ==> Pte(s0, d, w) == Absent && Pte(s2, d, w) == Absent
    ensures SameAll(s0, s2)
  {
    hide Shaped;
  }

  lemma TableFramesNone(s: Store, d: nat)
    requires IsTable(s, d)
    ensures TableFrames(s, d, 0) == {}
  {
  }

  lemma Dropped<T>(m: map<nat, T>, a: set<nat>, d: nat)
    ensures m - a - {d} == m - (a + {d})
  {
  }

  lemma WithoutSpaceIs(s: Store, d: nat)
    ensures WithoutSpace(s, d) == Store(s.tables - Frames(s, d), s.owner - Frames(s, d), s.spaces - {d})
  {
  }

  /** Clearing the user pages and then dropping the tables, put together. */
  lemma TornDown(s0: Store, s: Store, r: Store, d: nat, top: nat, m0: map<nat, Page>, m: map<nat, Page>,
                 m': map<nat, Page>)
    requires Shaped(s0) && Shaped(s) && Shaped(r) && d in s0.spaces && d in s.spaces
    requires SameOutside(s0, s, d, 0, top) && Shrinks(s0, s, d, 0, top) && Torn(s, r, d)
    requires DataKept(s.owner.Keys, m0, m) && DataKept(r.owner.Keys, m, m')
    ensures Torn(s0, r, d) && DataKept(r.owner.Keys, m0, m')
  {
    hide Shaped;
  }

  lemma SetPteHere(s0: Store, s: Store, top: nat, d: nat, v: nat, f: nat, flags: Flags, user: bool)
    requires Shaped(s0) && Shaped(s) && SameAll(s0, s) && Sound(s, top) && d in s.spaces && HasTable(s, d, v)
    requires Pte(s0, d, v) == Absent && OnlyTables(s0, s, d, if user then {f} else {})
    requires if user then v < top && f in s0.owner && f in s.owner && s.owner[f] == Held else v >= top
    ensures var r := WithEntry(s, d, v, Present(f, flags), if user then s.owner[f := PageOf(d, v)] else s.owner);
            && Shaped(r) && Sound(r, top) && SameBut(s0, r, d, v) && Pte(r, d, v) == Present(f, flags)
            && OnlyTables(s0, r, d, if user then {f} else {})
  {
    if user {
      PageAdded(s, top, d, v, f, flags);
    } else {
      UpperMapped(s, top, d, v, Present(f, flags));
    }
  }

  lemma TableAddedHere(s: Store, top: nat, d: nat, i: nat, f: nat)
    requires Shaped(s) && Sound(s, top) && d in s.spaces && i < N && IsTable(s, d) && s.tables[d][i] == Absent
    requires f in s.owner && s.owner[f] == Held
    ensures var r := WithTable(s, d, i, f);
            && f != d && Shaped(r) && Sound(r, top) && SameAll(s, r)
            && r == Store(s.tables[f := Blank()][d := s.tables[d][i := Present(f, Flags(true, true))]],
                          s.owner[f := TableOf(d, i)], s.spaces)
  {
    RootAt(s, d);
    TableAdded(s, top, d, i, f);
  }
}
