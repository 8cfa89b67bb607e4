/** How many frames an address space takes: a directory, a page table for every
    directory entry in use, and a frame for every user page. */
module FrameCounts {
  import opened PageTables
  import opened Params
  import opened Sets

  /** KERNBASE in pages. */
  const KERNPAGE: nat := 0x8_0000
  const VPAGES: nat := 0x10_0000

  datatype Kmap = Kmap(virt: nat, pages: nat, frame: nat, flags: Flags)

  ghost predicate KmapOk(km: seq<Kmap>) {
    && (forall i :: 0 <= i < |km| ==> km[i].virt >= KERNPAGE && km[i].pages >= 1 && km[i].virt + km[i].pages <= VPAGES)
    && (forall i, j :: 0 <= i < j < |km| ==> km[i].virt + km[i].pages <= km[j].virt)
  }

  /** Page w lies in one of the first k ranges of the kernel. */
  predicate InKernel(km: seq<Kmap>, k: nat, w: nat)
    requires k <= |km|
  {
    exists j :: 0 <= j < k && km[j].virt <= w < km[j].virt + km[j].pages
  }

  // ---- what a space has

  /** Directory entry i of d points to a page table. */
  ghost predicate HasDir(s: Store, d: nat, i: nat) {
    i < N && IsTable(s, d) && s.tables[d][i].Present?
  }

  ghost function Dirs(s: Store, d: nat): (r: set<nat>)
    ensures forall i :: i in r <==> 0 <= i < N && HasDir(s, d, i)
  {
    set i | 0 <= i < N && HasDir(s, d, i)
  }

  ghost function UserPages(s: Store, top: nat, d: nat): (r: set<nat>)
    requires Shaped(s) && d in s.spaces
    ensures forall v :: v in r <==> 0 <= v < top && Pte(s, d, v).Present?
  {
    set v | 0 <= v < top && Pte(s, d, v).Present?
  }

  /** The frames of space d. */
  ghost function FramesOf(s: Store, d: nat): (r: set<nat>)
    ensures forall f :: f in r <==> f in s.owner && Belongs(s.owner[f], f, d)
  {
    set f | f in s.owner && Belongs(s.owner[f], f, d)
  }

  /** Directory entries other than k are the same. */
  ghost predicate DirsBut(s: Store, r: Store, d: nat, k: nat) {
    && IsTable(s, d) && IsTable(r, d)
    && forall i :: 0 <= i < N && i != k ==> r.tables[d][i] == s.tables[d][i]
  }

  /** No page table is there for nothing. */
  ghost predicate Tight(s: Store, d: nat)
    requires Shaped(s) && d in s.spaces
  {
    forall i :: 0 <= i < N && HasDir(s, d, i) ==> exists w :: 0 <= w && Pdx(w) == i && Pte(s, d, w).Present?
  }

  lemma {:induction false} InjectiveImage(m: map<nat, nat>)
    requires forall x, y :: x in m && y in m && m[x] == m[y] ==> x == y
    ensures |m.Values| == |m.Keys|
    decreases |m.Keys|
  {
    if m.Keys != {} {
      var x :| x in m;
      var r := m - {x};
      InjectiveImage(r);
      assert m.Keys == r.Keys + {x};
      assert m.Values == r.Values + {m[x]} by {
        forall v | v in m.Values ensures v in r.Values + {m[x]} {
          var y :| y in m && m[y] == v;
          if y != x { assert y in r && r[y] == v; }
        }
      }
      assert m[x] !in r.Values;
    } else {
      assert m.Values == {};
    }
  }

  /** The page tables of a space, one for each directory entry in use. */
  ghost function TablesOf(s: Store, d: nat): (r: set<nat>)
    ensures forall f :: f in r <==> f in s.owner && s.owner[f].TableOf? && s.owner[f].d == d
  {
    set f | f in s.owner && s.owner[f].TableOf? && s.owner[f].d == d
  }

  ghost function PagesOf(s: Store, d: nat): (r: set<nat>)
    ensures forall f :: f in r <==> f in s.owner && s.owner[f].PageOf? && s.owner[f].d == d
  {
    set f | f in s.owner && s.owner[f].PageOf? && s.owner[f].d == d
  }

  lemma TableCount(s: Store, top: nat, d: nat)
    requires Shaped(s) && Sound(s, top) && d in s.spaces
    ensures |TablesOf(s, d)| == |Dirs(s, d)|
  {
    hide Pte, Shaped, Sound;
    RootAt(s, d);
    var m := map i | i in Dirs(s, d) :: s.tables[d][i].frame;
    forall i | i in m ensures m[i] in s.owner && s.owner[m[i]] == TableOf(d, i) { TableRole(s, d, i); }
    InjectiveImage(m);
    assert m.Keys == Dirs(s, d);
    forall f | f in TablesOf(s, d) ensures f in m.Values {
      FrameRole(s, top, d, f);
      assert s.owner[f].i in m && m[s.owner[f].i] == f;
    }
    assert m.Values == TablesOf(s, d);
  }

  lemma PageCount(s: Store, top: nat, d: nat)
    requires Shaped(s) && Sound(s, top) && d in s.spaces
    ensures |PagesOf(s, d)| == |UserPages(s, top, d)|
  {
    hide Pte, Shaped, Sound;
    var m := map v | v in UserPages(s, top, d) :: Pte(s, d, v).frame;
    forall v | v in m ensures m[v] in s.owner && s.owner[m[v]] == PageOf(d, v) { PageRole(s, top, d, v); }
    InjectiveImage(m);
    assert m.Keys == UserPages(s, top, d);
    forall f | f in PagesOf(s, d) ensures f in m.Values {
      FrameRole(s, top, d, f);
      assert s.owner[f].v in m && m[s.owner[f].v] == f;
    }
    assert m.Values == PagesOf(s, d);
  }

  /** Every frame of a space is its directory, one of its tables or one of its
      user pages, each in one place. */
  lemma SpaceCount(s: Store, top: nat, d: nat)
    requires Shaped(s) && Sound(s, top) && d in s.spaces
    ensures |FramesOf(s, d)| == 1 + |Dirs(s, d)| + |UserPages(s, top, d)|
  {
    hide Pte, Shaped, Sound;
    RootAt(s, d);
    TableCount(s, top, d);
    PageCount(s, top, d);
    assert FramesOf(s, d) == {d} + TablesOf(s, d) + PagesOf(s, d);
    assert d !in TablesOf(s, d) && d !in PagesOf(s, d) && TablesOf(s, d) !! PagesOf(s, d);
  }

  lemma TableRole(s: Store, d: nat, i: nat)
    requires Shaped(s) && d in s.spaces && i < N && HasDir(s, d, i)
    ensures s.tables[d][i].frame in s.owner && s.owner[s.tables[d][i].frame] == TableOf(d, i)
  {
    assert TableOk(s, d, i);
  }

  lemma PageRole(s: Store, top: nat, d: nat, v: nat)
    requires Sound(s, top) && d in s.spaces && v < top && Pte(s, d, v).Present?
    ensures Pte(s, d, v).frame in s.owner && s.owner[Pte(s, d, v).frame] == PageOf(d, v)
  {
    assert PageOk(s, top, d, v);
  }

  lemma FrameRole(s: Store, top: nat, d: nat, f: nat)
    requires Sound(s, top) && f in s.owner && Belongs(s.owner[f], f, d)
    ensures match s.owner[f]
            case Root => f == d
            case TableOf(e, i) => e == d && HasDir(s, d, i) && s.tables[d][i].frame == f
            case PageOf(e, v) => e == d && d in s.spaces && v < top && Pte(s, d, v) .Present? && Pte(s, d, v).frame == f
            case Held => false
  {
    assert RoleOk(s, top, f);
    if s.owner[f].TableOf? { assert RootOk(s, d); }
  }

  // ---- what a space needs

  /** A page of the kernel or one of the user pages lo to n - 1 comes under
      directory entry i. */
  ghost predicate Needs(km: seq<Kmap>, lo: nat, n: nat, i: nat) {
    exists w :: 0 <= w && Pdx(w) == i && (InKernel(km, |km|, w) || lo <= w < n)
  }

  ghost function NeedDirs(km: seq<Kmap>, lo: nat, n: nat): (r: set<nat>)
    ensures forall i :: i in r <==> 0 <= i < N && Needs(km, lo, n, i)
  {
    set i | 0 <= i < N && Needs(km, lo, n, i)
  }

  /** The frames of a space with the kernel's mappings and user pages lo to n - 1. */
  ghost function Cost(km: seq<Kmap>, lo: nat, n: nat): nat {
    1 + |NeedDirs(km, lo, n)| + if n > lo then n - lo else 0
  }

  /** d maps exactly the kernel and the user pages lo to n - 1. */
  ghost predicate Exactly(s: Store, km: seq<Kmap>, d: nat, lo: nat, n: nat)
    requires Shaped(s) && d in s.spaces
  {
    Tight(s, d) && forall w :: 0 <= w ==> (Pte(s, d, w).Present? <==> InKernel(km, |km|, w) || lo <= w < n)
  }

  ghost function Interval(lo: nat, n: nat): (r: set<nat>)
    ensures forall v :: v in r <==> lo <= v < n
    ensures |r| == if n > lo then n - lo else 0
    decreases n
  {
    if n <= lo then {} else Interval(lo, n - 1) + {n - 1}
  }

  /** Mapping the ranges of the kernel one after the other. */
  lemma ExactNew(s: Store, km: seq<Kmap>, d: nat)
    requires Shaped(s) && d in s.spaces && IsTable(s, d) && s.tables[d] == Blank()
    requires forall w :: 0 <= w ==> Pte(s, d, w) == Absent
    ensures Exactly(s, km[..0], d, 0, 0)
  {
  }

  lemma KmapAt(km: seq<Kmap>, k: nat)
    requires KmapOk(km) && k < |km|
    ensures km[k].virt >= KERNPAGE && km[k].pages >= 1 && km[k].virt + km[k].pages <= VPAGES
  {
  }

  lemma InKernelStep(km: seq<Kmap>, k: nat, w: nat)
    requires k < |km|
    ensures InKernel(km[..k + 1], k + 1, w) <==> InKernel(km[..k], k, w) || km[k].virt <= w < km[k].virt + km[k].pages
  {
    if InKernel(km[..k], k, w) {
      var j :| 0 <= j < k && km[..k][j].virt <= w < km[..k][j].virt + km[..k][j].pages;
      assert km[..k + 1][j] == km[j];
    }
    if km[k].virt <= w < km[k].virt + km[k].pages { assert km[..k + 1][k] == km[k]; }
    if InKernel(km[..k + 1], k + 1, w) {
      var j :| 0 <= j < k + 1 && km[..k + 1][j].virt <= w < km[..k + 1][j].virt + km[..k + 1][j].pages;
      assert j < k ==> km[..k][j] == km[j];
    }
  }

  /** The pages of the next range are not mapped yet. */
  lemma ExactAbsent(s: Store, km: seq<Kmap>, d: nat, k: nat)
    requires Shaped(s) && d in s.spaces && KmapOk(km) && k < |km| && Exactly(s, km[..k], d, 0, 0)
    ensures forall w :: km[k].virt <= w < km[k].virt + km[k].pages ==> Pte(s, d, w) == Absent
  {
    hide Pte, Shaped, Tight;
  }

  lemma ExactRange(s: Store, r: Store, km: seq<Kmap>, d: nat, k: nat)
    requires Shaped(s) && Shaped(r) && d in s.spaces && d in r.spaces && k < |km| && Exactly(s, km[..k], d, 0, 0)
    requires SameOutside(s, r, d, km[k].virt, km[k].virt + km[k].pages) && Tight(r, d)
    requires forall w :: km[k].virt <= w < km[k].virt + km[k].pages ==> Pte(r, d, w).Present?
    ensures Exactly(r, km[..k + 1], d, 0, 0)
  {
    hide Pte, Shaped, Tight, InKernel;
    forall w | 0 <= w ensures Pte(r, d, w).Present? <==> InKernel(km[..k + 1], k + 1, w) {
      InKernelStep(km, k, w);
      assert Pte(s, d, w).Present? <==> InKernel(km[..k], k, w);
    }
  }

  /** While range k is being mapped, nothing but the kernel is there. */
  lemma PartPresent(s: Store, r: Store, km: seq<Kmap>, d: nat, k: nat)
    requires Shaped(s) && Shaped(r) && d in s.spaces && d in r.spaces && k < |km| && Exactly(s, km[..k], d, 0, 0)
    requires SameOutside(s, r, d, km[k].virt, km[k].virt + km[k].pages)
    ensures forall v :: 0 <= v && Pte(r, d, v).Present? ==> InKernel(km, |km|, v)
  {
    hide Pte, Shaped, Tight;
    forall v | 0 <= v && Pte(r, d, v).Present? ensures InKernel(km, |km|, v) {
      if !(km[k].virt <= v < km[k].virt + km[k].pages) {
        assert Pte(s, d, v).Present?;
        var j :| 0 <= j < k && km[..k][j].virt <= v < km[..k][j].virt + km[..k][j].pages;
        assert km[j].virt <= v < km[j].virt + km[j].pages;
      }
    }
  }

  /** Everything below the kernel is free for the user. */
  lemma ExactBelow(s: Store, km: seq<Kmap>, d: nat, lo: nat, n: nat)
    requires Shaped(s) && d in s.spaces && KmapOk(km) && Exactly(s, km, d, lo, n)
    ensures forall w :: 0 <= w < KERNPAGE && !(lo <= w < n) ==> Pte(s, d, w) == Absent
  {
    hide Pte, Shaped, Tight;
  }

  lemma ExactNone(s: Store, km: seq<Kmap>, d: nat, lo: nat, n: nat, lo': nat, n': nat)
    requires Shaped(s) && d in s.spaces && Exactly(s, km, d, lo, n) && n <= lo && n' <= lo'
    ensures Exactly(s, km, d, lo', n')
  {
    hide Pte, Shaped, Tight;
  }

  /** One more page is mapped. */
  lemma ExactStep(s: Store, r: Store, km: seq<Kmap>, d: nat, lo: nat, i: nat)
    requires Shaped(s) && Shaped(r) && d in s.spaces && d in r.spaces && lo <= i && Exactly(s, km, d, lo, i)
    requires SameOutside(s, r, d, i, i + 1) && Pte(r, d, i).Present? && Tight(r, d)
    ensures Exactly(r, km, d, lo, i + 1)
  {
    hide Pte, Shaped, Tight, InKernel;
    forall w | 0 <= w ensures Pte(r, d, w).Present? <==> InKernel(km, |km|, w) || lo <= w < i + 1 {
      assert w != i ==> Pte(r, d, w) == Pte(s, d, w);
    }
  }

  /** The kernel alone costs least. */
  lemma CostLeast(km: seq<Kmap>, lo: nat, n: nat)
    ensures Cost(km, 0, 0) <= Cost(km, lo, n)
  {
    hide InKernel;
    forall i | i in NeedDirs(km, 0, 0) ensures i in NeedDirs(km, lo, n) {
      var w :| 0 <= w && Pdx(w) == i && (InKernel(km, |km|, w) || 0 <= w < 0);
      assert InKernel(km, |km|, w);
    }
    Smaller(NeedDirs(km, 0, 0), NeedDirs(km, lo, n));
  }

  /** The free frames `fr` did not suffice for page i, the last one taken (if any)
      being that of the page itself: they do not suffice for all n pages. */
  lemma CopyShort(s: Store, km: seq<Kmap>, e: nat, lo: nat, i: nat, n: nat, fr: set<nat>, mem: nat)
    requires Shaped(s) && e in s.spaces && Exactly(s, km, e, lo, i) && lo <= i < n && Pdx(i) < N
    requires if mem == 0 then fr == {} else fr == {mem} && !HasTable(s, e, i)
    ensures |fr| + Cost(km, lo, i) < Cost(km, lo, n)
  {
    CostMore(km, lo, i, n);
    if mem != 0 {
      ExactDirs(s, km, e, lo, i);
      NoDir(s, e, i);
    }
  }

  lemma NoDir(s: Store, d: nat, v: nat)
    requires Shaped(s) && d in s.spaces && Pdx(v) < N
    ensures HasTable(s, d, v) <==> Pdx(v) in Dirs(s, d)
  {
    WalkAt(s, d, v);
  }

  lemma ExactCount(s: Store, km: seq<Kmap>, top: nat, d: nat, lo: nat, n: nat)
    requires Sound(s, top) && d in s.spaces && Exactly(s, km, d, lo, n) && n <= top <= KERNPAGE && KmapOk(km)
    ensures |FramesOf(s, d)| == Cost(km, lo, n) && Dirs(s, d) == NeedDirs(km, lo, n)
  {
    SpaceCount(s, top, d);
    ExactDirs(s, km, d, lo, n);
    hide Sound, Shaped, Pte, Tight;
    assert UserPages(s, top, d) == Interval(lo, n);
  }

  lemma ExactDirs(s: Store, km: seq<Kmap>, d: nat, lo: nat, n: nat)
    requires Shaped(s) && d in s.spaces && Exactly(s, km, d, lo, n)
    ensures Dirs(s, d) == NeedDirs(km, lo, n)
  {
    hide InKernel;
    forall i | i in Dirs(s, d) ensures i in NeedDirs(km, lo, n) {
      var w :| 0 <= w && Pdx(w) == i && Pte(s, d, w).Present?;
    }
    forall i | i in NeedDirs(km, lo, n) ensures i in Dirs(s, d) {
      var w :| 0 <= w && Pdx(w) == i && (InKernel(km, |km|, w) || lo <= w < n);
      PresentDir(s, d, w);
    }
  }

  lemma PresentDir(s: Store, d: nat, w: nat)
    requires Shaped(s) && d in s.spaces && Pte(s, d, w).Present?
    ensures Pdx(w) < N && HasDir(s, d, Pdx(w))
  {
    assert RootOk(s, d) && TableOk(s, d, Pdx(w));
  }

  /** One page more costs a frame, and another if its table is not there yet. */
  lemma CostMore(km: seq<Kmap>, lo: nat, i: nat, n: nat)
    requires lo <= i < n && Pdx(i) < N
    ensures Cost(km, lo, i) + 1 <= Cost(km, lo, n)
    ensures Pdx(i) !in NeedDirs(km, lo, i) ==> Cost(km, lo, i) + 2 <= Cost(km, lo, n)
  {
    var a, b := NeedDirs(km, lo, i), NeedDirs(km, lo, n);
    forall k | k in a ensures k in b {
      var w :| 0 <= w && Pdx(w) == k && (InKernel(km, |km|, w) || lo <= w < i);
      assert lo <= w < n || InKernel(km, |km|, w);
    }
    assert Pdx(i) in b;
    Smaller(a, b);
    if Pdx(i) !in a { Smaller(a + {Pdx(i)}, b); }
  }

  /** A space that so far maps part of the kernel, and lacks a table the kernel needs. */
  lemma PartCount(s: Store, km: seq<Kmap>, top: nat, d: nat, w: nat)
    requires Sound(s, top) && d in s.spaces && Tight(s, d) && top <= KERNPAGE && KmapOk(km)
    requires forall v :: 0 <= v && Pte(s, d, v).Present? ==> InKernel(km, |km|, v)
    requires InKernel(km, |km|, w) && Pdx(w) < N && !HasDir(s, d, Pdx(w))
    ensures |FramesOf(s, d)| < Cost(km, 0, 0)
  {
    SpaceCount(s, top, d);
    PartDirs(s, km, d);
    hide Sound, Shaped, Pte, Tight;
    assert UserPages(s, top, d) == {};
    assert Pdx(w) in NeedDirs(km, 0, 0);
    Smaller(Dirs(s, d) + {Pdx(w)}, NeedDirs(km, 0, 0));
  }

  lemma PartDirs(s: Store, km: seq<Kmap>, d: nat)
    requires Shaped(s) && d in s.spaces && Tight(s, d)
    requires forall v :: 0 <= v && Pte(s, d, v).Present? ==> InKernel(km, |km|, v)
    ensures Dirs(s, d) <= NeedDirs(km, 0, 0)
  {
    hide InKernel;
    forall i | i in Dirs(s, d) ensures i in NeedDirs(km, 0, 0) {
      var w :| 0 <= w && Pdx(w) == i && Pte(s, d, w).Present?;
    }
  }

  lemma KeysBuilt(s: Store, r: Store, d: nat)
    requires Shaped(s) && Shaped(r) && Built(s, r, d)
    ensures r.owner.Keys == s.owner.Keys + FramesOf(r, d) && s.owner.Keys !! FramesOf(r, d)
  {
    hide Shaped, Pte;
  }

  /** Every frame is in use or free. */
  lemma BuiltCount(s: Store, r: Store, d: nat, managed: set<nat>, free0: set<nat>, free: set<nat>)
    requires Shaped(s) && Shaped(r) && Built(s, r, d)
    requires managed == s.owner.Keys + free0 && s.owner.Keys !! free0
    requires managed == r.owner.Keys + free && r.owner.Keys !! free
    ensures |free0| == |free| + |FramesOf(r, d)|
  {
    hide Shaped, Pte, Built, FramesOf;
    KeysBuilt(s, r, d);
    FreeDiffers(managed, s.owner.Keys, FramesOf(r, d), free0, free);
  }

  lemma FreeDiffers(managed: set<nat>, used: set<nat>, taken: set<nat>, free0: set<nat>, free: set<nat>)
    requires managed == used + free0 && used !! free0 && used !! taken
    requires managed == used + taken + free && (used + taken) !! free
    ensures |free0| == |free| + |taken|
  {
    assert free0 == free + taken;
  }

  // ---- what growing a space takes

  /** One of the pages lo to hi - 1 comes under directory entry i. */
  ghost predicate Spans(lo: nat, hi: nat, i: nat) {
    exists w :: lo <= w < hi && Pdx(w) == i
  }

  /** The directory entries of the pages lo to hi - 1 that have no table yet. */
  ghost function NewDirs(s: Store, d: nat, lo: nat, hi: nat): (r: set<nat>)
    ensures forall i :: i in r <==> 0 <= i < N && Spans(lo, hi, i) && !HasDir(s, d, i)
  {
    set i | 0 <= i < N && Spans(lo, hi, i) && !HasDir(s, d, i)
  }

  /** The frames for the pages lo to hi - 1 and for the tables they lack. */
  ghost function GrowCost(s: Store, d: nat, lo: nat, hi: nat): nat {
    |NewDirs(s, d, lo, hi)| + if hi > lo then hi - lo else 0
  }

  lemma GrowNothing(s: Store, d: nat, lo: nat, hi: nat)
    requires hi <= lo
    ensures GrowCost(s, d, lo, hi) == 0
  {
    assert NewDirs(s, d, lo, hi) == {};
  }

  lemma SpansMore(lo: nat, a: nat, i: nat)
    requires lo <= a
    ensures Spans(lo, a + 1, i) <==> Spans(lo, a, i) || Pdx(a) == i
  {
  }

  /** One page more: a frame, and another if neither the space nor an earlier page
      brings its table. */
  lemma GrowMore(s: Store, d: nat, lo: nat, a: nat)
    requires lo <= a && Pdx(a) < N
    ensures GrowCost(s, d, lo, a + 1) ==
            GrowCost(s, d, lo, a) + 1 + if HasDir(s, d, Pdx(a)) || Spans(lo, a, Pdx(a)) then 0 else 1
  {
    forall i ensures Spans(lo, a + 1, i) <==> Spans(lo, a, i) || Pdx(a) == i { SpansMore(lo, a, i); }
    var was, now := NewDirs(s, d, lo, a), NewDirs(s, d, lo, a + 1);
    if HasDir(s, d, Pdx(a)) || Spans(lo, a, Pdx(a)) {
      assert now == was;
    } else {
      assert now == was + {Pdx(a)};
    }
  }

  lemma GrowLess(s: Store, d: nat, lo: nat, a: nat, hi: nat)
    requires lo <= a <= hi
    ensures GrowCost(s, d, lo, a) <= GrowCost(s, d, lo, hi)
  {
    forall i | i in NewDirs(s, d, lo, a) ensures i in NewDirs(s, d, lo, hi) {
      var w :| lo <= w < a && Pdx(w) == i;
      assert lo <= w < hi;
    }
    Smaller(NewDirs(s, d, lo, a), NewDirs(s, d, lo, hi));
  }

  /** From s0 to s the pages lo to a - 1 of d have got tables, and no others. */
  ghost predicate DirsGrown(s0: Store, s: Store, d: nat, lo: nat, a: nat) {
    forall i :: 0 <= i < N ==> (HasDir(s, d, i) <==> HasDir(s0, d, i) || Spans(lo, a, i))
  }

  lemma DirsGrownNone(s: Store, d: nat, lo: nat)
    ensures DirsGrown(s, s, d, lo, lo)
  {
  }

  lemma DirsGrownStep(s0: Store, s: Store, r: Store, d: nat, lo: nat, a: nat)
    requires DirsGrown(s0, s, d, lo, a) && lo <= a && Pdx(a) < N && DirsBut(s, r, d, Pdx(a)) && HasDir(r, d, Pdx(a))
    ensures DirsGrown(s0, r, d, lo, a + 1)
  {
    forall i | 0 <= i < N ensures HasDir(r, d, i) <==> HasDir(s0, d, i) || Spans(lo, a + 1, i) { SpansMore(lo, a, i); }
  }

  /** The free frames `fr` did not suffice for page a, the last one taken (if any)
      being that of the page itself: they do not suffice for the pages up to hi. */
  lemma GrowShort(s0: Store, s: Store, d: nat, lo: nat, a: nat, hi: nat, fr: set<nat>, mem: nat)
    requires DirsGrown(s0, s, d, lo, a) && lo <= a < hi && Pdx(a) < N && Shaped(s) && d in s.spaces
    requires if mem == 0 then fr == {} else fr == {mem} && !HasTable(s, d, a)
    ensures |fr| + GrowCost(s0, d, lo, a) < GrowCost(s0, d, lo, hi)
  {
    hide DirsGrown;
    GrowMore(s0, d, lo, a);
    GrowLess(s0, d, lo, a + 1, hi);
    if mem != 0 { GrownDir(s0, s, d, lo, a); }
  }

  lemma GrownDir(s0: Store, s: Store, d: nat, lo: nat, a: nat)
    requires DirsGrown(s0, s, d, lo, a) && Pdx(a) < N && Shaped(s) && d in s.spaces
    ensures HasTable(s, d, a) <==> HasDir(s0, d, Pdx(a)) || Spans(lo, a, Pdx(a))
  {
    WalkAt(s, d, a);
    assert HasDir(s, d, Pdx(a)) <==> HasDir(s0, d, Pdx(a)) || Spans(lo, a, Pdx(a));
  }

  /** Building a space at once costs what building it and growing it costs. */
  lemma CostGrows(s: Store, km: seq<Kmap>, d: nat, lo: nat, a: nat, n: nat)
    requires Shaped(s) && d in s.spaces && Exactly(s, km, d, lo, a) && lo <= a <= n
    ensures Cost(km, lo, a) + GrowCost(s, d, a, n) == Cost(km, lo, n)
  {
    hide InKernel, Exactly;
    ExactDirs(s, km, d, lo, a);
    var was, more, all := NeedDirs(km, lo, a), NewDirs(s, d, a, n), NeedDirs(km, lo, n);
    forall i ensures i in all <==> i in was + more { NeedsMore(s, km, d, lo, a, n, i); }
    assert all == was + more && was !! more;
  }

  lemma NeedsMore(s: Store, km: seq<Kmap>, d: nat, lo: nat, a: nat, n: nat, i: nat)
    requires lo <= a <= n && Dirs(s, d) == NeedDirs(km, lo, a)
    ensures i in NeedDirs(km, lo, n) <==> i in NeedDirs(km, lo, a) || i in NewDirs(s, d, a, n)
  {
    hide InKernel;
    if i in NeedDirs(km, lo, n) {
      var w :| 0 <= w && Pdx(w) == i && (InKernel(km, |km|, w) || lo <= w < n);
      if InKernel(km, |km|, w) || w < a {
        assert Needs(km, lo, a, i);
      } else {
        assert Spans(a, n, i);
      }
    }
    if i in NeedDirs(km, lo, a) {
      var w :| 0 <= w && Pdx(w) == i && (InKernel(km, |km|, w) || lo <= w < a);
      assert Needs(km, lo, n, i);
    }
    if i in NewDirs(s, d, a, n) {
      var w :| a <= w < n && Pdx(w) == i;
      assert lo <= w < n;
      assert Needs(km, lo, n, i);
    }
  }

  /** More pages cost more. */
  lemma CostMono(km: seq<Kmap>, lo: nat, a: nat, n: nat)
    requires a <= n
    ensures Cost(km, lo, a) <= Cost(km, lo, n)
  {
    hide InKernel;
    forall i | i in NeedDirs(km, lo, a) ensures i in NeedDirs(km, lo, n) {
      var w :| 0 <= w && Pdx(w) == i && (InKernel(km, |km|, w) || lo <= w < a);
      assert InKernel(km, |km|, w) || lo <= w < n;
    }
    Smaller(NeedDirs(km, lo, a), NeedDirs(km, lo, n));
  }

  /** Growing an exact space by whole pages. */
  lemma ExactGrown(s: Store, r: Store, km: seq<Kmap>, d: nat, lo: nat, a: nat, n: nat)
    requires Shaped(s) && Shaped(r) && d in s.spaces && d in r.spaces && Exactly(s, km, d, lo, a) && lo <= a <= n
    requires Tight(r, d) && forall w :: a <= w < n ==> Pte(r, d, w).Present?
    requires forall w :: 0 <= w && !(a <= w < n) ==> Pte(r, d, w) == Pte(s, d, w)
    ensures Exactly(r, km, d, lo, n)
  {
    hide Pte, Shaped, Tight, InKernel;
    forall w | 0 <= w ensures Pte(r, d, w).Present? <==> InKernel(km, |km|, w) || lo <= w < n {
      assert !(a <= w < n) ==> Pte(r, d, w) == Pte(s, d, w);
    }
  }

  // ---- how tightness is kept

  /** From s, page v of d is mapped, with a table for it if there was none. */
  lemma TightSet(s: Store, r: Store, d: nat, v: nat)
    requires Shaped(s) && Shaped(r) && d in s.spaces && d in r.spaces && Tight(s, d) && Pdx(v) < N
    requires SameBut(s, r, d, v) && Pte(r, d, v).Present? && DirsBut(s, r, d, Pdx(v))
    ensures Tight(r, d)
  {
    hide Pte, Shaped;
    forall i | 0 <= i < N && HasDir(r, d, i) ensures exists w :: 0 <= w && Pdx(w) == i && Pte(r, d, w).Present? {
      if i == Pdx(v) {
        assert Pte(r, d, v).Present?;
      } else {
        assert HasDir(s, d, i);
        var w :| 0 <= w && Pdx(w) == i && Pte(s, d, w).Present?;
        assert Pte(r, d, w).Present?;
      }
    }
  }

  lemma TightSame(s: Store, r: Store, d: nat)
    requires Shaped(s) && Shaped(r) && d in s.spaces && d in r.spaces && SameAll(s, r) && r.tables == s.tables
    ensures Tight(s, d) ==> Tight(r, d)
  {
    hide Pte, Shaped;
    RootAt(s, d);
    RootAt(r, d);
    if Tight(s, d) {
      forall i | 0 <= i < N && HasDir(r, d, i) ensures exists w :: 0 <= w && Pdx(w) == i && Pte(r, d, w).Present? {
        assert HasDir(s, d, i);
        var w :| 0 <= w && Pdx(w) == i && Pte(s, d, w).Present?;
        assert Pte(r, d, w).Present?;
      }
    }
  }
}
