/** Two-level page tables on values: which frame each virtual page of each
    address space maps to, and which frame belongs to whom. */
module PageTables {
  import opened Params

  /** Entries of a page directory or a page table. */
  const N: nat := 1024

  datatype Flags = Flags(w: bool, u: bool)
  datatype Entry = Absent | Present(frame: nat, flags: Flags)

  type Table = seq<Entry>

  /** PDX and PTX of a virtual page number. */
  function Pdx(v: nat): nat { v / N }
  function Ptx(v: nat): (j: nat) ensures j < N { v % N }

  /** PGROUNDUP(sz) in pages. */
  function Pages(sz: nat): nat { (sz + PGSIZE - 1) / PGSIZE }

  /** A page lies below the rounded size exactly if one of its bytes, the first at
      least, lies below the size. */
  lemma PagesCover(sz: nat, w: nat)
    ensures w < Pages(sz) <==> w * PGSIZE < sz
  {
  }

  /** So the page of a byte is below the rounded size exactly if the byte's page
      begins below the size; every byte below the size is on such a page. */
  lemma BytesCovered(sz: nat, a: nat)
    ensures a < sz ==> a / PGSIZE < Pages(sz)
    ensures a >= sz && a / PGSIZE < Pages(sz) ==> sz > 0 && a / PGSIZE == (sz - 1) / PGSIZE
  {
    PagesCover(sz, a / PGSIZE);
  }

  function Blank(): (t: Table)
    ensures |t| == N && forall i :: 0 <= i < N ==> t[i] == Absent
  {
    seq(N, _ => Absent)
  }

  /** What an allocated frame is used for: the directory d, the i-th page table of
      d, the user page v of d, or something its holder has not mapped. */
  datatype Role = Root | TableOf(d: nat, i: nat) | PageOf(d: nat, v: nat) | Held

  /** Every table and every user page of every space has a frame of its own, and
      every frame with a role is where its role says. */
  datatype Store = Store(tables: map<nat, Table>, owner: map<nat, Role>, spaces: set<nat>)

  ghost predicate IsTable(s: Store, t: nat) {
    t in s.tables && |s.tables[t]| == N
  }

  ghost predicate RootOk(s: Store, d: nat) {
    IsTable(s, d) && d in s.owner && s.owner[d] == Root
  }

  /** The page table behind directory entry i, if present. The directory entry
      forbids nothing: what a page allows is for its own entry to say. */
  ghost predicate TableOk(s: Store, d: nat, i: nat)
    requires IsTable(s, d) && i < N
  {
    s.tables[d][i].Present? ==>
      var t := s.tables[d][i].frame;
      && IsTable(s, t) && t in s.owner && s.owner[t] == TableOf(d, i)
      && s.tables[d][i].flags == Flags(true, true)
  }

  ghost predicate Shaped(s: Store) {
    && (forall d :: d in s.spaces ==> RootOk(s, d))
    && (forall d, i :: d in s.spaces && 0 <= i < N ==> TableOk(s, d, i))
  }

  /** The entry for virtual page v. */
  ghost function Pte(s: Store, d: nat, v: nat): (e: Entry)
    requires Shaped(s) && d in s.spaces
  {
    if Pdx(v) < N && TableOk(s, d, Pdx(v)) && s.tables[d][Pdx(v)].Present?
    then s.tables[s.tables[d][Pdx(v)].frame][Ptx(v)] else Absent
  }

  /** What the paging hardware makes of address a: its top ten bits choose the
      directory entry, which forbids nothing, and the next ten the page's entry. */
  lemma Translation(s: Store, d: nat, a: nat)
    requires Shaped(s) && d in s.spaces && a < UINT
    ensures IsTable(s, d) && a / 0x40_0000 < N
    ensures var e := s.tables[d][a / 0x40_0000];
            && (e.Absent? ==> Pte(s, d, a / PGSIZE) == Absent)
            && (e.Present? ==> e.flags == Flags(true, true) && IsTable(s, e.frame)
                               && Pte(s, d, a / PGSIZE) == s.tables[e.frame][a / 0x1000 % 0x400])
  {
    assert RootOk(s, d);
    assert a / PGSIZE / N == a / 0x40_0000;
    assert TableOk(s, d, a / 0x40_0000);
  }

  /** Address a is mapped in space d. */
  ghost predicate ByteMapped(s: Store, d: nat, a: nat)
    requires Shaped(s) && d in s.spaces
  {
    Pte(s, d, a / PGSIZE).Present?
  }

  /** User pages are those below `top`; the kernel's and the shared pages above
      it map frames no space owns. */
  ghost predicate PageOk(s: Store, top: nat, d: nat, v: nat)
    requires Shaped(s) && d in s.spaces && v < top
  {
    Pte(s, d, v).Present? ==>
      var f := Pte(s, d, v).frame;
      f in s.owner && s.owner[f] == PageOf(d, v)
  }

  ghost predicate RoleOk(s: Store, top: nat, f: nat)
    requires Shaped(s) && f in s.owner
  {
    match s.owner[f]
    case Root => f in s.spaces
    case TableOf(d, i) => d in s.spaces && i < N && s.tables[d][i].Present? && s.tables[d][i].frame == f
    case PageOf(d, v) => d in s.spaces && v < top && Pte(s, d, v).Present? && Pte(s, d, v).frame == f
    case Held => true
  }

  ghost predicate Sound(s: Store, top: nat) {
    && Shaped(s)
    && (forall d, v :: d in s.spaces && 0 <= v < top ==> PageOk(s, top, d, v))
    && (forall f :: f in s.owner ==> RoleOk(s, top, f))
  }

  /** Two stores map the same pages, except perhaps page v of space d. */
  ghost predicate SameBut(s: Store, r: Store, d: nat, v: nat)
    requires Shaped(s) && Shaped(r)
  {
    s.spaces == r.spaces
    && forall e, w :: e in s.spaces && 0 <= w && !(e == d && w == v) ==> Pte(r, e, w) == Pte(s, e, w)
  }

  /** Two stores map the same pages of the same spaces. */
  ghost predicate SameAll(s: Store, r: Store)
    requires Shaped(s) && Shaped(r)
  {
    s.spaces == r.spaces && forall e, w :: e in s.spaces && 0 <= w ==> Pte(r, e, w) == Pte(s, e, w)
  }

  /** No two user pages share a frame, in one space or in two. */
  lemma PagesApart(s: Store, top: nat, d: nat, v: nat, e: nat, w: nat)
    requires Sound(s, top) && d in s.spaces && e in s.spaces && v < top && w < top && (d != e || v != w)
    requires Pte(s, d, v).Present? && Pte(s, e, w).Present?
    ensures Pte(s, d, v).frame != Pte(s, e, w).frame
  {
    assert PageOk(s, top, d, v) && PageOk(s, top, e, w);
  }

  lemma SameAllSelf(s: Store)
    requires Shaped(s)
    ensures SameAll(s, s)
  {
  }

  lemma SameAllTrans(s: Store, r: Store, q: Store)
    requires Shaped(s) && Shaped(r) && Shaped(q) && SameAll(s, r) && SameAll(r, q)
    ensures SameAll(s, q)
  {
  }

  // ---- the elementary changes

  /** A held frame becomes page table i of d (walkpgdir with alloc). */
  ghost function WithTable(s: Store, d: nat, i: nat, f: nat): Store
    requires d in s.tables && i < |s.tables[d]|
  {
    Store(s.tables[f := Blank()][d := s.tables[d][i := Present(f, Flags(true, true))]], s.owner[f := TableOf(d, i)],
          s.spaces)
  }

  lemma TableAdded(s: Store, top: nat, d: nat, i: nat, f: nat)
    requires Sound(s, top) && d in s.spaces && i < N && RootOk(s, d) && s.tables[d][i] == Absent
    requires f !in s.owner || s.owner[f] == Held
    ensures var r := WithTable(s, d, i, f);
            Shaped(r) && Sound(r, top) && SameAll(s, r)
  {
    var r := WithTable(s, d, i, f);
    forall e | e in s.spaces ensures RootOk(r, e) { assert RootOk(s, e); }
    forall e, j | e in s.spaces && 0 <= j < N ensures TableOk(r, e, j) { assert RootOk(s, e) && TableOk(s, e, j); }
    forall e, w: nat | e in s.spaces ensures Pte(r, e, w) == Pte(s, e, w) {
      assert RootOk(s, e);
      if Pdx(w) < N { assert TableOk(s, e, Pdx(w)) && TableOk(r, e, Pdx(w)); }
    }
    forall e, w | e in s.spaces && 0 <= w < top ensures PageOk(r, top, e, w) { assert PageOk(s, top, e, w); }
    forall g | g in r.owner ensures RoleOk(r, top, g) { if g != f { assert RoleOk(s, top, g); } }
  }

  /** The entry of page v of d is set; the frames that are tables stay tables. */
  ghost function WithEntry(s: Store, d: nat, v: nat, e: Entry, owner: map<nat, Role>): Store
    requires IsTable(s, d) && Pdx(v) < N && s.tables[d][Pdx(v)].Present? && IsTable(s, s.tables[d][Pdx(v)].frame)
  {
    var t := s.tables[d][Pdx(v)].frame;
    Store(s.tables[t := s.tables[t][Ptx(v) := e]], owner, s.spaces)
  }

  ghost predicate KeepsTables(s: Store, owner: map<nat, Role>) {
    forall g :: g in s.owner && (s.owner[g].Root? || s.owner[g].TableOf?) ==> g in owner && owner[g] == s.owner[g]
  }

  /** Walking to page v succeeds: its page table is there. */
  ghost predicate HasTable(s: Store, d: nat, v: nat)
    requires Shaped(s) && d in s.spaces
  {
    Pdx(v) < N && RootOk(s, d) && TableOk(s, d, Pdx(v)) && s.tables[d][Pdx(v)].Present?
  }

  lemma EntrySet(s: Store, d: nat, v: nat, e: Entry, owner: map<nat, Role>)
    requires Shaped(s) && d in s.spaces && HasTable(s, d, v) && KeepsTables(s, owner)
    ensures var r := WithEntry(s, d, v, e, owner);
            Shaped(r) && SameBut(s, r, d, v) && Pte(r, d, v) == e
  {
    var r := WithEntry(s, d, v, e, owner);
    var t := s.tables[d][Pdx(v)].frame;
    forall c | c in s.spaces ensures RootOk(r, c) { assert RootOk(s, c); }
    forall c, j | c in s.spaces && 0 <= j < N ensures TableOk(r, c, j) { assert RootOk(s, c) && TableOk(s, c, j); }
    forall c, w: nat | c in s.spaces && !(c == d && w == v)
      ensures Pte(r, c, w) == Pte(s, c, w)
    {
      assert RootOk(s, c);
      if Pdx(w) < N {
        assert TableOk(s, c, Pdx(w)) && TableOk(r, c, Pdx(w));
        if Pdx(v) == Pdx(w) && Ptx(v) == Ptx(w) { SplitUnique(v, w); }
      }
    }
  }

  lemma SplitUnique(v: nat, w: nat)
    requires Pdx(v) == Pdx(w) && Ptx(v) == Ptx(w)
    ensures v == w
  {
  }

  /** A held frame becomes user page v of d. */
  lemma PageAdded(s: Store, top: nat, d: nat, v: nat, f: nat, flags: Flags)
    requires Sound(s, top) && d in s.spaces && HasTable(s, d, v) && v < top && Pte(s, d, v) == Absent
    requires f !in s.owner || s.owner[f] == Held
    ensures var r := WithEntry(s, d, v, Present(f, flags), s.owner[f := PageOf(d, v)]);
            Shaped(r) && Sound(r, top) && SameBut(s, r, d, v) && Pte(r, d, v) == Present(f, flags)
  {
    var r := WithEntry(s, d, v, Present(f, flags), s.owner[f := PageOf(d, v)]);
    EntrySet(s, d, v, Present(f, flags), s.owner[f := PageOf(d, v)]);
    forall c, w | c in s.spaces && 0 <= w < top ensures PageOk(r, top, c, w) { assert PageOk(s, top, c, w); }
    forall g | g in r.owner ensures RoleOk(r, top, g) {
      if g != f { assert RoleOk(s, top, g); }
      TablesStay(s, d, v, Present(f, flags), r.owner, g);
    }
  }

  /** The frame of user page v of d is taken out. */
  lemma PageCleared(s: Store, top: nat, d: nat, v: nat)
    requires Sound(s, top) && d in s.spaces && HasTable(s, d, v) && v < top && Pte(s, d, v).Present?
    ensures var f := Pte(s, d, v).frame;
            var r := WithEntry(s, d, v, Absent, s.owner - {f});
            && f in s.owner && Shaped(r) && Sound(r, top) && SameBut(s, r, d, v) && Pte(r, d, v) == Absent
  {
    var f := Pte(s, d, v).frame;
    assert PageOk(s, top, d, v);
    var r := WithEntry(s, d, v, Absent, s.owner - {f});
    EntrySet(s, d, v, Absent, s.owner - {f});
    forall c, w | c in s.spaces && 0 <= w < top ensures PageOk(r, top, c, w) { assert PageOk(s, top, c, w); }
    forall g | g in r.owner ensures RoleOk(r, top, g) {
      assert RoleOk(s, top, g);
      TablesStay(s, d, v, Absent, r.owner, g);
    }
  }

  /** The flags of user page v of d change. */
  lemma FlagsSet(s: Store, top: nat, d: nat, v: nat, e: Entry)
    requires Sound(s, top) && d in s.spaces && HasTable(s, d, v) && v < top
    requires e.Present? && Pte(s, d, v).Present? && e.frame == Pte(s, d, v).frame
    ensures var r := WithEntry(s, d, v, e, s.owner);
            Shaped(r) && Sound(r, top) && SameBut(s, r, d, v) && Pte(r, d, v) == e
  {
    var r := WithEntry(s, d, v, e, s.owner);
    EntrySet(s, d, v, e, s.owner);
    forall c, w | c in s.spaces && 0 <= w < top ensures PageOk(r, top, c, w) { assert PageOk(s, top, c, w); }
    forall g | g in r.owner ensures RoleOk(r, top, g) {
      assert RoleOk(s, top, g);
      TablesStay(s, d, v, e, r.owner, g);
    }
  }

  /** A page at or above `top` is mapped: no frame changes hands. */
  lemma UpperMapped(s: Store, top: nat, d: nat, v: nat, e: Entry)
    requires Sound(s, top) && d in s.spaces && HasTable(s, d, v) && v >= top
    ensures var r := WithEntry(s, d, v, e, s.owner);
            Shaped(r) && Sound(r, top) && SameBut(s, r, d, v) && Pte(r, d, v) == e
  {
    var r := WithEntry(s, d, v, e, s.owner);
    EntrySet(s, d, v, e, s.owner);
    forall c, w | c in s.spaces && 0 <= w < top ensures PageOk(r, top, c, w) { assert PageOk(s, top, c, w); }
    forall g | g in r.owner ensures RoleOk(r, top, g) {
      assert RoleOk(s, top, g);
      TablesStay(s, d, v, e, r.owner, g);
    }
  }

  /** Directories are not touched by an entry change. */
  lemma TablesStay(s: Store, d: nat, v: nat, e: Entry, owner: map<nat, Role>, g: nat)
    requires Shaped(s) && d in s.spaces && HasTable(s, d, v)
    ensures var r := WithEntry(s, d, v, e, owner);
            g in s.owner && s.owner[g].TableOf? && s.owner[g].d in s.spaces ==>
              s.owner[g].d in r.tables && r.tables[s.owner[g].d] == s.tables[s.owner[g].d]
  {
    if g in s.owner && s.owner[g].TableOf? && s.owner[g].d in s.spaces { assert RootOk(s, s.owner[g].d); }
  }

  /** A held frame becomes the directory of a new, empty space. */
  ghost function WithSpace(s: Store, d: nat): Store {
    Store(s.tables[d := Blank()], s.owner[d := Root], s.spaces + {d})
  }

  lemma SpaceAdded(s: Store, top: nat, d: nat)
    requires Sound(s, top) && (d !in s.owner || s.owner[d] == Held)
    ensures var r := WithSpace(s, d);
            && d !in s.spaces && Shaped(r) && Sound(r, top)
            && (forall e, w :: e in s.spaces && 0 <= w ==> Pte(r, e, w) == Pte(s, e, w))
            && (forall w :: 0 <= w ==> Pte(r, d, w) == Absent)
  {
    var r := WithSpace(s, d);
    assert d in s.spaces ==> RootOk(s, d);
    forall e | e in r.spaces ensures RootOk(r, e) { if e != d { assert RootOk(s, e); } }
    forall e, j | e in r.spaces && 0 <= j < N ensures TableOk(r, e, j) {
      if e != d { assert RootOk(s, e) && TableOk(s, e, j); }
    }
    forall e, w: nat | e in s.spaces ensures Pte(r, e, w) == Pte(s, e, w) {
      assert RootOk(s, e);
      if Pdx(w) < N { assert TableOk(s, e, Pdx(w)) && TableOk(r, e, Pdx(w)); }
    }
    forall e, w | e in r.spaces && 0 <= w < top ensures PageOk(r, top, e, w) {
      if e != d { assert PageOk(s, top, e, w); }
    }
    forall g | g in r.owner ensures RoleOk(r, top, g) { if g != d { assert RoleOk(s, top, g); } }
  }

  /** The frames that make up space d besides its user pages. */
  ghost function Frames(s: Store, d: nat): set<nat> {
    set f | f in s.owner && (f == d || (s.owner[f].TableOf? && s.owner[f].d == d))
  }

  ghost function WithoutSpace(s: Store, d: nat): Store {
    Store(s.tables - Frames(s, d), s.owner - Frames(s, d), s.spaces - {d})
  }

  /** Once its user pages are gone, the directory and the tables of d can go:
      nothing of d is left. */
  lemma SpaceRemoved(s: Store, top: nat, d: nat)
    requires Sound(s, top) && d in s.spaces && forall v :: 0 <= v < top ==> Pte(s, d, v) == Absent
    ensures var r := WithoutSpace(s, d);
            && Shaped(r) && Sound(r, top)
            && (forall e, w :: e in r.spaces && 0 <= w ==> Pte(r, e, w) == Pte(s, e, w))
            && (forall f :: f in r.owner ==> r.owner[f] != TableOf(d, 0) && !(r.owner[f].PageOf? && r.owner[f].d == d))
  {
    var r := WithoutSpace(s, d);
    forall e | e in r.spaces ensures RootOk(r, e) { assert RootOk(s, e); }
    forall e, j | e in r.spaces && 0 <= j < N ensures TableOk(r, e, j) { assert RootOk(s, e) && TableOk(s, e, j); }
    forall e, w: nat | e in r.spaces ensures Pte(r, e, w) == Pte(s, e, w) {
      assert RootOk(s, e);
      if Pdx(w) < N { assert TableOk(s, e, Pdx(w)) && TableOk(r, e, Pdx(w)); }
    }
    forall e, w | e in r.spaces && 0 <= w < top ensures PageOk(r, top, e, w) { assert PageOk(s, top, e, w); }
    forall g | g in r.owner ensures RoleOk(r, top, g) { assert RoleOk(s, top, g); }
  }

  /** r maps what s maps, except perhaps pages lo to hi - 1 of space d. */
  ghost predicate SameOutside(s: Store, r: Store, d: nat, lo: nat, hi: nat)
    requires Shaped(s) && Shaped(r)
  {
    && s.spaces == r.spaces
    && (forall e, w :: e in s.spaces && 0 <= w && !(e == d && lo <= w < hi) ==> Pte(r, e, w) == Pte(s, e, w))
  }

  /** Roles only go to frames that had none. */
  ghost predicate Grows(s: Store, r: Store) {
    forall f :: f in s.owner ==> f in r.owner && r.owner[f] == s.owner[f]
  }

  /** A frame nobody maps loses its role and its contents. */
  lemma FrameDropped(s: Store, top: nat, f: nat)
    requires Sound(s, top) && (f !in s.owner || s.owner[f] == Held)
    ensures var r := Store(s.tables - {f}, s.owner - {f}, s.spaces);
            Shaped(r) && Sound(r, top) && SameAll(s, r)
  {
    var r := Store(s.tables - {f}, s.owner - {f}, s.spaces);
    forall e | e in r.spaces ensures RootOk(r, e) { assert RootOk(s, e); }
    forall e, j | e in r.spaces && 0 <= j < N ensures TableOk(r, e, j) { assert RootOk(s, e) && TableOk(s, e, j); }
    forall e, w: nat | e in r.spaces ensures Pte(r, e, w) == Pte(s, e, w) {
      assert RootOk(s, e);
      if Pdx(w) < N { assert TableOk(s, e, Pdx(w)) && TableOk(r, e, Pdx(w)); }
    }
    forall e, w | e in r.spaces && 0 <= w < top ensures PageOk(r, top, e, w) { assert PageOk(s, top, e, w); }
    forall g | g in r.owner ensures RoleOk(r, top, g) { assert RoleOk(s, top, g); }
  }

  /** A frame without a role can be handed to a holder. */
  lemma FrameTaken(s: Store, top: nat, f: nat)
    requires Sound(s, top) && f !in s.owner
    ensures var r := Store(s.tables, s.owner[f := Held], s.spaces);
            Shaped(r) && Sound(r, top) && SameAll(s, r)
  {
    var r := Store(s.tables, s.owner[f := Held], s.spaces);
    forall e | e in r.spaces ensures RootOk(r, e) { assert RootOk(s, e); }
    forall e, j | e in r.spaces && 0 <= j < N ensures TableOk(r, e, j) { assert RootOk(s, e) && TableOk(s, e, j); }
    forall e, w: nat | e in r.spaces ensures Pte(r, e, w) == Pte(s, e, w) {
      assert RootOk(s, e);
      if Pdx(w) < N { assert TableOk(s, e, Pdx(w)) && TableOk(r, e, Pdx(w)); }
    }
    forall e, w | e in r.spaces && 0 <= w < top ensures PageOk(r, top, e, w) { assert PageOk(s, top, e, w); }
    forall g | g in r.owner ensures RoleOk(r, top, g) { if g != f { assert RoleOk(s, top, g); } }
  }

  // ---- reading entries

  lemma RootAt(s: Store, d: nat)
    requires Shaped(s) && d in s.spaces
    ensures IsTable(s, d) && d in s.owner && s.owner[d] == Root
  {
    assert RootOk(s, d);
  }

  /** The walk to page v: with the directory entry present there is a table, and
      the entry found in it is the entry of v. */
  lemma WalkAt(s: Store, d: nat, v: nat)
    requires Shaped(s) && d in s.spaces && Pdx(v) < N
    ensures IsTable(s, d) && d in s.owner && s.owner[d] == Root
    ensures HasTable(s, d, v) <==> s.tables[d][Pdx(v)].Present?
    ensures HasTable(s, d, v) ==>
              var t := s.tables[d][Pdx(v)].frame;
              && IsTable(s, t) && t in s.owner && s.owner[t] == TableOf(d, Pdx(v))
                   && Pte(s, d, v) == s.tables[t][Ptx(v)]
    ensures !HasTable(s, d, v) ==> Pte(s, d, v) == Absent
  {
    assert RootOk(s, d) && TableOk(s, d, Pdx(v));
  }

  /** An absent directory entry means a whole stretch of absent pages. */
  lemma NoTableNoPages(s: Store, d: nat, v: nat, w: nat)
    requires Shaped(s) && d in s.spaces && Pdx(v) < N && !HasTable(s, d, v) && v <= w < (Pdx(v) + 1) * N
    ensures Pte(s, d, w) == Absent
  {
    assert Pdx(w) == Pdx(v);
    WalkAt(s, d, v);
  }

  lemma PteOwner(s: Store, top: nat, d: nat, v: nat)
    requires Sound(s, top) && d in s.spaces && v < top && Pte(s, d, v).Present?
    ensures Pte(s, d, v).frame in s.owner && s.owner[Pte(s, d, v).frame] == PageOf(d, v)
  {
    assert PageOk(s, top, d, v);
  }

  /** From s to r, frames outside x keep their roles, and the only frames with
      a new role are page tables of d. */
  ghost predicate OnlyTables(s: Store, r: Store, d: nat, x: set<nat>) {
    && (forall g :: g in s.owner && g !in x ==> g in r.owner && r.owner[g] == s.owner[g])
    && (forall g :: g in r.owner && g !in s.owner ==> r.owner[g].TableOf? && r.owner[g].d == d)
  }

  /** A walk that adds at most a table of d. */
  lemma WalkOnly(s: Store, r: Store, d: nat, i: nat)
    requires Grows(s, r) && forall f :: f in r.owner && f !in s.owner ==> r.owner[f] == TableOf(d, i)
    ensures forall x: set<nat> :: OnlyTables(s, r, d, x)
    ensures forall f :: f in s.owner ==> f in r.owner && r.owner[f] == s.owner[f]
  {
  }

  /** From s to r, only user pages lo to hi - 1 of d lost their frames. */
  ghost predicate Shrinks(s: Store, r: Store, d: nat, lo: nat, hi: nat) {
    && (forall g :: g in r.owner ==> g in s.owner && r.owner[g] == s.owner[g])
    && (forall g :: g in s.owner && g !in r.owner ==>
          s.owner[g].PageOf? && s.owner[g].d == d && lo <= s.owner[g].v < hi)
  }

  /** Everything that clearing one page does. */
  lemma PageFreed(s: Store, top: nat, d: nat, v: nat)
    requires Sound(s, top) && d in s.spaces && HasTable(s, d, v) && v < top && Pte(s, d, v).Present?
    ensures var f, t := Pte(s, d, v).frame, s.tables[d][Pdx(v)].frame;
            && f in s.owner && s.owner[f] == PageOf(d, v) && f != t && t in s.tables && |s.tables[t]| == N
            && (var r := Store(s.tables[t := s.tables[t][Ptx(v) := Absent]] - {f}, s.owner - {f}, s.spaces);
                Shaped(r) && Sound(r, top) && SameBut(s, r, d, v) && Pte(r, d, v) == Absent
                    && Shrinks(s, r, d, v, v + 1))
  {
    var f, t := Pte(s, d, v).frame, s.tables[d][Pdx(v)].frame;
    WalkAt(s, d, v);
    PteOwner(s, top, d, v);
    PageCleared(s, top, d, v);
    FrameDropped(WithEntry(s, d, v, Absent, s.owner - {f}), top, f);
    assert s.owner - {f} - {f} == s.owner - {f};
  }

  lemma ShrinkStep(s: Store, r: Store, q: Store, d: nat, lo: nat, a: nat, hi: nat)
    requires Shaped(s) && Shaped(r) && Shaped(q) && lo <= a < hi && d in s.spaces
    requires SameOutside(s, r, d, lo, hi) && Shrinks(s, r, d, lo, hi)
    requires SameBut(r, q, d, a) && Shrinks(r, q, d, a, a + 1)
    requires forall w :: lo <= w < a ==> Pte(r, d, w) == Absent
    requires Pte(q, d, a) == Absent
    ensures SameOutside(s, q, d, lo, hi) && Shrinks(s, q, d, lo, hi)
    ensures forall g :: g in q.owner ==> g in r.owner
    ensures forall w :: lo <= w < a + 1 ==> Pte(q, d, w) == Absent
  {
  }

  // ---- growing a space

  /** From s to r nobody lost a frame; new roles are page tables of d and user
      pages lo to hi - 1 of d. */
  ghost predicate Grew(s: Store, r: Store, d: nat, lo: nat, hi: nat) {
    && (forall g :: g in s.owner ==> g in r.owner && r.owner[g] == s.owner[g])
    && (forall g :: g in r.owner && g !in s.owner ==>
          match r.owner[g]
          case TableOf(e, _) => e == d
          case PageOf(e, v) => e == d && lo <= v < hi
          case _ => false)
  }

  /** The bytes of a page and how it is mapped. */
  datatype Content<P> = Content(bytes: P, flags: Flags)

  /** Pages lo to hi - 1 of d are mapped with the given contents and flags. */
  ghost predicate Filled<P>(s: Store, data: map<nat, P>, d: nat, lo: nat, hi: nat, want: seq<Content<P>>)
    requires Shaped(s) && d in s.spaces && hi <= |want|
  {
    forall w :: lo <= w < hi ==>
      var e := Pte(s, d, w);
      e.Present? && e.frame in s.owner && e.frame in data && Content(data[e.frame], e.flags) == want[w]
  }

  lemma GrewSelf(s: Store, d: nat, lo: nat)
    requires Shaped(s)
    ensures SameOutside(s, s, d, lo, lo) && Grew(s, s, d, lo, lo)
  {
  }

  /** One page: frame f was taken, filled and mapped. */
  lemma GrewOne(s: Store, s1: Store, r: Store, d: nat, a: nat, f: nat)
    requires Shaped(s) && Shaped(s1) && Shaped(r) && d in s.spaces
    requires SameAll(s, s1) && f !in s.owner && s1.owner == s.owner[f := Held]
    requires SameOutside(s1, r, d, a, a + 1) && OnlyTables(s1, r, d, {f}) && f in r.owner && r.owner[f] == PageOf(d, a)
    ensures SameOutside(s, r, d, a, a + 1) && Grew(s, r, d, a, a + 1)
  {
  }

  lemma GrewStep(s0: Store, s: Store, r: Store, d: nat, lo: nat, a: nat)
    requires Shaped(s0) && Shaped(s) && Shaped(r) && lo <= a && d in s0.spaces
    requires SameOutside(s0, s, d, lo, a) && Grew(s0, s, d, lo, a)
    requires SameOutside(s, r, d, a, a + 1) && Grew(s, r, d, a, a + 1)
    ensures SameOutside(s0, r, d, lo, a + 1) && Grew(s0, r, d, lo, a + 1)
    ensures forall w :: 0 <= w && w != a ==> Pte(r, d, w) == Pte(s, d, w)
  {
  }

  lemma FilledStep<P>(s: Store, data: map<nat, P>, r: Store, data': map<nat, P>, d: nat, lo: nat, a: nat, f: nat,
                      want: seq<Content<P>>)
    requires Shaped(s) && Shaped(r) && d in s.spaces && d in r.spaces && lo <= a
    requires a < |want| && Filled(s, data, d, lo, a, want) && SameOutside(s, r, d, a, a + 1) && Grew(s, r, d, a, a + 1)
    requires f !in s.owner && data' == data[f := want[a].bytes] && Pte(r, d, a) == Present(f, want[a].flags)
    requires f in r.owner
    ensures Filled(r, data', d, lo, a + 1, want)
  {
    forall w | lo <= w < a + 1
      ensures var e := Pte(r, d, w);
              e.Present? && e.frame in r.owner && e.frame in data' && Content(data'[e.frame], e.flags) == want[w]
    {
      if w < a { assert Pte(r, d, w) == Pte(s, d, w); }
    }
  }

  /** No frame has the role of an absent page. */
  lemma AbsentUnowned(s: Store, top: nat, d: nat, lo: nat, hi: nat)
    requires Sound(s, top) && d in s.spaces && forall w :: lo <= w < hi ==> Pte(s, d, w) == Absent
    ensures forall g :: g in s.owner && s.owner[g].PageOf? && s.owner[g].d == d ==> !(lo <= s.owner[g].v < hi)
  {
    forall g | g in s.owner && s.owner[g].PageOf? && s.owner[g].d == d
      ensures !(lo <= s.owner[g].v < hi)
    {
      assert RoleOk(s, top, g);
    }
  }

  // ---- tearing a space down

  /** A frame that is of space d and of no other. */
  ghost predicate Belongs(role: Role, f: nat, d: nat) {
    match role
    case Root => f == d
    case TableOf(e, _) => e == d
    case PageOf(e, _) => e == d
    case Held => false
  }

  /** r is s without space d: the other spaces are untouched, and exactly the
      frames of d have lost their roles. */
  ghost predicate Torn(s: Store, r: Store, d: nat)
    requires Shaped(s) && Shaped(r)
  {
    && r.spaces == s.spaces - {d}
    && (forall e, w :: e in r.spaces && 0 <= w ==> Pte(r, e, w) == Pte(s, e, w))
    && (forall f :: f in r.owner ==> f in s.owner && r.owner[f] == s.owner[f] && !Belongs(r.owner[f], f, d))
    && (forall f :: f in s.owner && f !in r.owner ==> Belongs(s.owner[f], f, d))
  }

  /** The page tables behind the first n directory entries of d. */
  ghost function TableFrames(s: Store, d: nat, n: nat): (r: set<nat>)
    requires IsTable(s, d) && n <= N
  {
    if n == 0 then {}
    else TableFrames(s, d, n - 1) + if s.tables[d][n - 1].Present? then {s.tables[d][n - 1].frame} else {}
  }

  lemma {:induction false} TableFramesAre(s: Store, d: nat, n: nat)
    requires Shaped(s) && d in s.spaces && IsTable(s, d) && n <= N
    ensures forall f :: f in TableFrames(s, d, n) <==>
              exists i :: 0 <= i < n && s.tables[d][i].Present? && s.tables[d][i].frame == f
    ensures forall f :: f in TableFrames(s, d, n) ==>
              f in s.owner && s.owner[f].TableOf? && s.owner[f].d == d && s.owner[f].i < n
  {
    if n > 0 {
      TableFramesAre(s, d, n - 1);
      assert TableOk(s, d, n - 1);
    }
  }

  lemma TableFrameStep(s: Store, d: nat, i: nat)
    requires Shaped(s) && d in s.spaces && IsTable(s, d) && d in s.owner && s.owner[d] == Root && i < N
    ensures s.tables[d][i].Present? ==>
              var f := s.tables[d][i].frame;
              && f in s.owner && s.owner[f] == TableOf(d, i) && f !in TableFrames(s, d, i) && f != d
              && TableFrames(s, d, i + 1) == TableFrames(s, d, i) + {f}
    ensures s.tables[d][i].Absent? ==> TableFrames(s, d, i + 1) == TableFrames(s, d, i)
  {
    TableFramesAre(s, d, i);
    assert TableOk(s, d, i);
  }

  lemma FramesAre(s: Store, top: nat, d: nat)
    requires Shaped(s) && Sound(s, top) && d in s.spaces && IsTable(s, d) && d in s.owner && s.owner[d] == Root
    ensures Frames(s, d) == TableFrames(s, d, N) + {d} && Frames(s, d) <= s.owner.Keys
    ensures d !in TableFrames(s, d, N)
  {
    TableFramesAre(s, d, N);
    forall f | f in Frames(s, d) && f != d
      ensures f in TableFrames(s, d, N)
    {
      assert RoleOk(s, top, f);
    }
  }

  lemma AllAbsent(s: Store, top: nat, d: nat)
    requires Shaped(s) && Sound(s, top) && d in s.spaces
    requires forall w :: 0 <= w < top ==> Pte(s, d, w) == Absent
    ensures var r := WithoutSpace(s, d);
            Shaped(r) && Sound(r, top) && Torn(s, r, d)
  {
    SpaceRemoved(s, top, d);
    AbsentUnowned(s, top, d, 0, top);
    forall f | f in s.owner
      ensures f in Frames(s, d) <==> Belongs(s.owner[f], f, d)
    {
      assert RoleOk(s, top, f);
      assert RootOk(s, d);
    }
  }

  // ---- building a space up

  /** r is s with a new space d: the other spaces are untouched, and the frames
      with a new role are all of d. */
  ghost predicate Built(s: Store, r: Store, d: nat)
    requires Shaped(s) && Shaped(r)
  {
    && d !in s.spaces && r.spaces == s.spaces + {d}
    && (forall e, w :: e in s.spaces && 0 <= w ==> Pte(r, e, w) == Pte(s, e, w))
    && (forall g :: g in s.owner ==> g in r.owner && r.owner[g] == s.owner[g] && !Belongs(s.owner[g], g, d))
    && (forall g :: g in r.owner && g !in s.owner ==> Belongs(r.owner[g], g, d))
  }

  lemma BuiltStart(s: Store, h: Store, top: nat, d: nat)
    requires Shaped(s) && Sound(s, top) && Shaped(h) && Sound(h, top) && SameAll(s, h)
    requires d !in s.owner && h.owner == s.owner[d := Held]
    ensures var r := WithSpace(h, d);
            Shaped(r) && Sound(r, top) && Built(s, r, d) && forall w :: 0 <= w ==> Pte(r, d, w) == Absent
  {
    SpaceAdded(h, top, d);
    forall g | g in s.owner ensures !Belongs(s.owner[g], g, d) {
      assert RoleOk(s, top, g);
    }
  }

  lemma BuiltMore(s: Store, r: Store, q: Store, d: nat, lo: nat, hi: nat)
    requires Shaped(s) && Shaped(r) && Shaped(q) && Built(s, r, d) && SameOutside(r, q, d, lo, hi)
    requires OnlyTables(r, q, d, {}) || Grew(r, q, d, lo, hi) || Shrinks(r, q, d, lo, hi)
    ensures Built(s, q, d)
    ensures forall w :: 0 <= w && !(lo <= w < hi) ==> Pte(q, d, w) == Pte(r, d, w)
  {
  }

  lemma BuiltSame(s: Store, r: Store, q: Store, d: nat)
    requires Shaped(s) && Shaped(r) && Shaped(q) && Built(s, r, d) && SameAll(r, q) && Grew(r, q, d, 0, 0)
    ensures Built(s, q, d) && forall w :: 0 <= w ==> Pte(q, d, w) == Pte(r, d, w)
  {
  }

  /** Building a space and tearing it down leaves no trace. */
  lemma BuiltTorn(s: Store, r: Store, q: Store, d: nat)
    requires Shaped(s) && Shaped(r) && Shaped(q) && Built(s, r, d) && Torn(r, q, d)
    ensures q.owner == s.owner && q.spaces == s.spaces && SameAll(s, q)
  {
  }
}
