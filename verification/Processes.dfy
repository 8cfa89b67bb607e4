/** The process table as a step machine. A step is the code a process runs while
    it holds ptable.lock, or the lock inside a sleep lock; steps of different
    processes interleave freely. */
module Processes {
  import opened Params

  /** What a process sleeps on: a process (in wait), a sleep lock, anything else. */
  datatype Chan = NoChan | OfProc(p: nat) | OfLock(l: nat) | Other(n: nat)

  /** The parent is an index in the table, or NOBODY. */
  const NOBODY := -1
  datatype Proc = Proc(state: RunState, pid: nat, parent: int, chan: Chan, killed: bool)

  /** Where a process is between steps. `Forking(c)` has an EMBRYO in slot c;
      `InWait` has slept in wait; `InAcquire(l)` has slept in acquiresleep;
      `Checked(l)` has found lock l taken and still holds the spin lock inside
      it; `Waking(l)` has cleared lock l and not yet finished wakeup. */
  datatype Where = Free | Forking(c: nat) | InWait | Checked(l: nat) | InAcquire(l: nat) | Waking(l: nat)

  datatype Sys = Sys(procs: seq<Proc>, at: seq<Where>, init: nat, locked: set<nat>, nextpid: nat)

  // ---- what the loops over the table do

  function Roused(p: Proc, c: Chan): Proc {
    if p.state == SLEEPING && p.chan == c then p.(state := RUNNABLE) else p
  }

  /** wakeup1 */
  function Wake(ps: seq<Proc>, c: Chan): (r: seq<Proc>)
    ensures |r| == |ps| && forall i :: 0 <= i < |ps| ==> r[i] == Roused(ps[i], c)
  {
    seq(|ps|, i requires 0 <= i < |ps| => Roused(ps[i], c))
  }

  predicate HasZombie(ps: seq<Proc>, cur: int) {
    exists j :: 0 <= j < |ps| && ps[j].parent == cur && ps[j].state == ZOMBIE
  }

  /** exit: the parent is woken, the children are passed to init, who is woken if
      one of them is a zombie, and the process becomes a zombie. */
  function Exited(ps: seq<Proc>, init: nat, cur: nat): (r: seq<Proc>)
    requires cur < |ps|
    ensures |r| == |ps|
  {
    var woken := Wake(ps, ParentChan(ps[cur]));
    var told := if HasZombie(ps, cur) then Wake(woken, OfProc(init)) else woken;
    seq(|ps|, i requires 0 <= i < |ps| =>
      var q := if ps[i].parent == cur then told[i].(parent := init) else told[i];
      if i == cur then q.(state := ZOMBIE) else q)
  }

  function ParentChan(p: Proc): Chan {
    if p.parent < 0 then NoChan else OfProc(p.parent)
  }

  /** wait frees the slot of the child it reports. */
  function Reaped(ps: seq<Proc>, z: nat): seq<Proc>
    requires z < |ps|
  {
    ps[z := ps[z].(state := UNUSED, pid := 0, parent := NOBODY, killed := false)]
  }

  function KilledAt(ps: seq<Proc>, i: nat): seq<Proc>
    requires i < |ps|
  {
    ps[i := ps[i].(killed := true, state := if ps[i].state == SLEEPING then RUNNABLE else ps[i].state)]
  }

  /** The first slot with number n, or the length of the table. */
  function FirstWith(ps: seq<Proc>, n: nat): (r: nat)
    ensures r <= |ps| && (forall k :: 0 <= k < r ==> ps[k].pid != n) && (r < |ps| ==> ps[r].pid == n)
  {
    FirstFrom(ps, n, 0)
  }

  function FirstFrom(ps: seq<Proc>, n: nat, i: nat): (r: nat)
    requires i <= |ps|
    ensures i <= r <= |ps| && (forall k :: i <= k < r ==> ps[k].pid != n) && (r < |ps| ==> ps[r].pid == n)
    decreases |ps| - i
  {
    if i == |ps| || ps[i].pid == n then i else FirstFrom(ps, n, i + 1)
  }

  /** kill */
  function KilledBy(ps: seq<Proc>, n: nat): seq<Proc> {
    if FirstWith(ps, n) < |ps| then KilledAt(ps, FirstWith(ps, n)) else ps
  }

  // ---- steps

  datatype Step =
    | Alloc(p: nat, c: nat)     // fork, allocproc: slot c is the first UNUSED one
    | ForkFail(p: nat)          // no stack or no memory: the slot is given back
    | ForkLink(p: nat)          // np->parent = curproc
    | ForkDone(p: nat)          // np->state = RUNNABLE
    | Exit(p: nat)
    | Reap(p: nat, z: nat)      // wait finds zombie z
    | WaitNone(p: nat)          // wait finds no child, or the process is killed
    | WaitSleep(p: nat)
    | Dispatch(p: nat)          // the scheduler; sleep returns with chan = 0
    | Yield(p: nat)
    | Kill(n: nat)              // kill by number
    | SleepOn(p: nat, n: nat)   // sleep on something else
    | Wakeup(n: nat)            // wakeup on something else, from anywhere
    | TryLock(p: nat, l: nat)   // acquiresleep, up to sleep or its end
    | LockSleep(p: nat)         // the sleep in acquiresleep
    | Unlock(p: nat, l: nat)    // releasesleep up to wakeup
    | UnlockWake(p: nat)        // the wakeup in releasesleep, and its end

  predicate Running(s: Sys, p: nat) {
    p < |s.procs| && p < |s.at| && s.procs[p].state == RUNNING
  }

  /** p holds the spin lock inside sleep lock l. */
  predicate HoldsSpin(w: Where, l: nat) {
    w == Checked(l) || w == Waking(l)
  }

  predicate SpinFree(s: Sys, l: nat) {
    forall q :: 0 <= q < |s.at| ==> !HoldsSpin(s.at[q], l)
  }

  predicate HasChild(ps: seq<Proc>, cur: int) {
    exists j :: 0 <= j < |ps| && ps[j].parent == cur
  }

  predicate Enabled(s: Sys, e: Step) {
    match e
    case Alloc(p, c) =>
      && Running(s, p) && s.at[p] == Free && c < |s.procs| && s.procs[c].state == UNUSED
      && forall k :: 0 <= k < c ==> s.procs[k].state != UNUSED
    case ForkFail(p) => Running(s, p) && s.at[p].Forking? && s.at[p].c < |s.procs|
        && s.procs[s.at[p].c].parent == NOBODY
    case ForkLink(p) => Running(s, p) && s.at[p].Forking? && s.at[p].c < |s.procs|
        && s.procs[s.at[p].c].parent == NOBODY
    case ForkDone(p) => Running(s, p) && s.at[p].Forking? && s.at[p].c < |s.procs| && s.procs[s.at[p].c].parent == p
    case Exit(p) => Running(s, p) && s.at[p] == Free && p != s.init
    case Reap(p, z) =>
      && Running(s, p) && s.at[p] in {Free, InWait} && z < |s.procs| && s.procs[z].parent == p
           && s.procs[z].state == ZOMBIE
      && forall k :: 0 <= k < z ==> !(s.procs[k].parent == p && s.procs[k].state == ZOMBIE)
    case WaitNone(p) =>
      Running(s, p) && s.at[p] in {Free, InWait} && !HasZombie(s.procs, p)
          && (!HasChild(s.procs, p) || s.procs[p].killed)
    case WaitSleep(p) =>
      Running(s, p) && s.at[p] in {Free, InWait} && !HasZombie(s.procs, p) && HasChild(s.procs, p) && !s.procs[p].killed
    case Dispatch(p) => p < |s.procs| && s.procs[p].state == RUNNABLE
    case Yield(p) => Running(s, p) && !s.at[p].Checked? && !s.at[p].Waking?
    case Kill(n) => true
    case SleepOn(p, n) => Running(s, p) && s.at[p] == Free
    case Wakeup(n) => true
    case TryLock(p, l) => Running(s, p) && s.at[p] in {Free, InAcquire(l)} && SpinFree(s, l)
    case LockSleep(p) => Running(s, p) && s.at[p].Checked?
    case Unlock(p, l) => Running(s, p) && s.at[p] == Free && SpinFree(s, l)
    case UnlockWake(p) => Running(s, p) && s.at[p].Waking?
  }

  function Next(s: Sys, e: Step): Sys
    requires Enabled(s, e)
  {
    var ps := s.procs;
    match e
    case Alloc(p, c) =>
      s.(procs := ps[c := ps[c].(state := EMBRYO, pid := s.nextpid)], nextpid := s.nextpid + 1,
          at := s.at[p := Forking(c)])
    case ForkFail(p) => s.(procs := ps[s.at[p].c := ps[s.at[p].c].(state := UNUSED)], at := s.at[p := Free])
    case ForkLink(p) => s.(procs := ps[s.at[p].c := ps[s.at[p].c].(parent := p)])
    case ForkDone(p) => s.(procs := ps[s.at[p].c := ps[s.at[p].c].(state := RUNNABLE)], at := s.at[p := Free])
    case Exit(p) => s.(procs := Exited(ps, s.init, p))
    case Reap(p, z) => s.(procs := Reaped(ps, z), at := s.at[p := Free])
    case WaitNone(p) => s.(at := s.at[p := Free])
    case WaitSleep(p) => s.(procs := ps[p := ps[p].(state := SLEEPING, chan := OfProc(p))], at := s.at[p := InWait])
    case Dispatch(p) => s.(procs := ps[p := ps[p].(state := RUNNING, chan := NoChan)])
    case Yield(p) => s.(procs := ps[p := ps[p].(state := RUNNABLE)])
    case Kill(n) => s.(procs := KilledBy(ps, n))
    case SleepOn(p, n) => s.(procs := ps[p := ps[p].(state := SLEEPING, chan := Other(n))])
    case Wakeup(n) => s.(procs := Wake(ps, Other(n)))
    case TryLock(p, l) =>
      if l in s.locked then s.(at := s.at[p := Checked(l)])
      else s.(locked := s.locked + {l}, at := s.at[p := Free])
    case LockSleep(p) =>
      s.(procs := ps[p := ps[p].(state := SLEEPING, chan := OfLock(s.at[p].l))], at := s.at[p := InAcquire(s.at[p].l)])
    case Unlock(p, l) => s.(locked := s.locked - {l}, at := s.at[p := Waking(l)])
    case UnlockWake(p) => s.(procs := Wake(ps, OfLock(s.at[p].l)), at := s.at[p := Free])
  }

  /** userinit has made init, and nothing else is there. */
  predicate Initial(s: Sys) {
    && |s.at| == |s.procs| && s.init < |s.procs| && s.locked == {} && s.nextpid == 2
    && s.procs[s.init] == Proc(RUNNABLE, 1, NOBODY, NoChan, false)
    && (forall i :: 0 <= i < |s.procs| && i != s.init ==> s.procs[i] == Proc(UNUSED, 0, NOBODY, NoChan, false))
    && (forall i :: 0 <= i < |s.at| ==> s.at[i] == Free)
  }

  // ---- what every reachable state keeps

  predicate Alive(st: RunState) {
    st == SLEEPING || st == RUNNABLE || st == RUNNING
  }

  /** Every process but init has a parent that can still wait for it, and who is
      older or init. */
  ghost predicate ParentOk(s: Sys, i: nat)
    requires i < |s.procs|
  {
    var p := s.procs[i];
    && p.pid < s.nextpid
    && (if i == s.init then Alive(p.state) && p.parent == NOBODY
        else Alive(p.state) || p.state == ZOMBIE ==>
               && 0 <= p.parent < |s.procs| && Alive(s.procs[p.parent].state)
               && (p.parent != s.init ==> s.procs[p.parent].pid < p.pid))
  }

  ghost predicate PlaceOk(s: Sys, i: nat)
    requires i < |s.procs| == |s.at|
  {
    var p := s.procs[i];
    && (p.state == UNUSED ==> p.parent == NOBODY)
    && (p.state == EMBRYO ==> p.parent == NOBODY || (0 <= p.parent < |s.at| && s.at[p.parent] == Forking(i)))
    && match s.at[i]
       case Free => p.state == SLEEPING ==> p.chan.Other?
       case Forking(c) =>
         && (p.state == RUNNING || p.state == RUNNABLE)
         && c < |s.procs| && s.procs[c].state == EMBRYO && p.pid < s.procs[c].pid
         && (s.procs[c].parent == NOBODY || s.procs[c].parent == i)
       case InWait => Alive(p.state) && (p.state == SLEEPING ==> p.chan == OfProc(i))
       case Checked(l) => p.state == RUNNING && l in s.locked
       case InAcquire(l) => Alive(p.state) && (p.state == SLEEPING ==> p.chan == OfLock(l))
       case Waking(l) => p.state == RUNNING && l !in s.locked
  }

  /** Nobody sleeps on a condition that has come true. A process asleep in wait
      has a child and no zombie child; one asleep in acquiresleep is behind a lock
      that is held, or whose releaser has still to call wakeup. */
  ghost predicate SleepOk(s: Sys, i: nat)
    requires i < |s.procs| == |s.at|
  {
    s.procs[i].state == SLEEPING ==>
      && (s.at[i] == InWait ==> HasChild(s.procs, i) && !HasZombie(s.procs, i))
      && (s.at[i].InAcquire? ==>
            s.at[i].l in s.locked || exists q :: 0 <= q < |s.at| && s.at[q] == Waking(s.at[i].l))
  }

  ghost predicate Apart(s: Sys) {
    && (forall i, j :: 0 <= i < |s.at| && 0 <= j < |s.at| && s.at[i].Forking? && s.at[i] == s.at[j] ==> i == j)
    && (forall i, j, l :: 0 <= i < |s.at| && 0 <= j < |s.at| && HoldsSpin(s.at[i], l) && HoldsSpin(s.at[j], l) ==>
         i == j)
  }

  /** A number in use names one slot; the slots with number 0 are free. */
  ghost predicate NumbersOk(s: Sys) {
    && 0 < s.nextpid
    && (forall i, j :: 0 <= i < |s.procs| && 0 <= j < |s.procs| && s.procs[i].pid == s.procs[j].pid ==>
          i == j || s.procs[i].pid == 0)
    && (forall i :: 0 <= i < |s.procs| && s.procs[i].pid == 0 ==> s.procs[i].state == UNUSED)
  }

  ghost predicate Inv(s: Sys) {
    && |s.at| == |s.procs| && s.init < |s.procs| && Apart(s) && NumbersOk(s)
    && (forall i :: 0 <= i < |s.procs| ==> ParentOk(s, i))
    && (forall i :: 0 <= i < |s.procs| ==> PlaceOk(s, i))
    && (forall i :: 0 <= i < |s.procs| ==> SleepOk(s, i))
  }

  lemma InvInit(s: Sys)
    requires Initial(s)
    ensures Inv(s)
  {
    forall i | 0 <= i < |s.procs| ensures ParentOk(s, i) && PlaceOk(s, i) && SleepOk(s, i) {
      assert s.at[i] == Free;
    }
  }

  /** A step that moves no process in or out of the family. */
  predicate Shuffles(e: Step) {
    !Forks(e) && !e.Exit? && !e.Reap?
  }

  ghost predicate SameFamily(s: Sys, t: Sys) {
    && |t.procs| == |s.procs| && t.init == s.init && t.nextpid == s.nextpid
    && forall i :: 0 <= i < |s.procs| ==>
         && t.procs[i].parent == s.procs[i].parent && t.procs[i].pid == s.procs[i].pid
         && (Alive(t.procs[i].state) == Alive(s.procs[i].state))
         && (!Alive(s.procs[i].state) ==> t.procs[i].state == s.procs[i].state)
  }

  lemma ShuffleFamily(s: Sys, e: Step)
    requires Inv(s) && Enabled(s, e) && Shuffles(e)
    ensures SameFamily(s, Next(s, e)) && |Next(s, e).at| == |s.at|
  {
    hide HasZombie, HasChild, SpinFree, Apart, SleepOk, HoldsSpin, ParentOk;
  }

  lemma FamilyParents(s: Sys, t: Sys, i: nat)
    requires SameFamily(s, t) && i < |s.procs| && ParentOk(s, i)
    ensures ParentOk(t, i) && HasChild(t.procs, i) == HasChild(s.procs, i)
    ensures HasZombie(t.procs, i) == HasZombie(s.procs, i)
  {
    if HasChild(s.procs, i) {
      var j :| 0 <= j < |s.procs| && s.procs[j].parent == i;
      assert t.procs[j].parent == i;
    }
    if HasZombie(s.procs, i) {
      var j :| 0 <= j < |s.procs| && s.procs[j].parent == i && s.procs[j].state == ZOMBIE;
      assert t.procs[j].parent == i;
    }
  }

  predicate Locks(e: Step) {
    e.TryLock? || e.LockSleep? || e.Unlock? || e.UnlockWake?
  }

  lemma WaitPlace(s: Sys, e: Step, i: nat)
    requires Inv(s) && Enabled(s, e) && (e.WaitNone? || e.WaitSleep?) && i < |s.procs|
    ensures |Next(s, e).procs| == |s.procs| == |Next(s, e).at| && PlaceOk(Next(s, e), i)
  {
    hide HasZombie, HasChild, SleepOk, ParentOk, Apart, SpinFree, HoldsSpin;
    assert PlaceOk(s, i);
    var q := s.procs[i].parent;
    if 0 <= q < |s.procs| { assert PlaceOk(s, q); }
    if s.at[i].Forking? && s.at[i].c < |s.procs| { assert PlaceOk(s, s.at[i].c); }
  }

  /** Only run states and channels change, and a process between the steps of a
      call does not go to sleep on something else. */
  ghost predicate Switched(s: Sys, t: Sys) {
    && t.at == s.at && t.locked == s.locked && |t.procs| == |s.procs| == |s.at|
    && forall i :: 0 <= i < |s.procs| ==>
         && t.procs[i].parent == s.procs[i].parent && t.procs[i].pid == s.procs[i].pid
         && SwitchedAt(s.procs[i], t.procs[i], s.at[i])
  }

  predicate SwitchedAt(p: Proc, q: Proc, w: Where) {
    || (q.state == p.state && q.chan == p.chan)
    || (&& Alive(p.state) && Alive(q.state) && !w.Checked? && !w.Waking?
        && (q.state == SLEEPING ==> w == Free && q.chan.Other?))
  }

  lemma SwitchIs(s: Sys, e: Step)
    requires Inv(s) && Enabled(s, e) && Shuffles(e) && !Locks(e) && !e.WaitNone? && !e.WaitSleep?
    ensures Switched(s, Next(s, e))
  {
    hide HasZombie, HasChild, SleepOk, ParentOk, Apart, SpinFree, HoldsSpin, NumbersOk, FirstWith;
    var t := Next(s, e);
    forall i | 0 <= i < |s.procs|
      ensures t.procs[i].parent == s.procs[i].parent && t.procs[i].pid == s.procs[i].pid
      ensures SwitchedAt(s.procs[i], t.procs[i], s.at[i])
    {
      assert PlaceOk(s, i);
    }
  }

  lemma SwitchPlace(s: Sys, t: Sys, i: nat)
    requires Inv(s) && Switched(s, t) && i < |s.procs|
    ensures PlaceOk(t, i)
  {
    hide HasZombie, HasChild, SleepOk, ParentOk, Apart, NumbersOk;
    assert PlaceOk(s, i);
    if s.at[i].Forking? { assert PlaceOk(s, s.at[i].c); }
  }

  lemma TryPlace(s: Sys, e: Step, i: nat)
    requires Inv(s) && Enabled(s, e) && (e.TryLock? || e.Unlock?) && i < |s.procs|
    ensures |Next(s, e).procs| == |s.procs| == |Next(s, e).at| && PlaceOk(Next(s, e), i)
  {
    hide HasZombie, HasChild, SleepOk, ParentOk, Apart, NumbersOk;
    assert PlaceOk(s, i);
    if 0 <= s.procs[i].parent < |s.procs| { assert PlaceOk(s, s.procs[i].parent); }
  }

  lemma LockSleepPlace(s: Sys, p: nat, i: nat)
    requires Inv(s) && Enabled(s, LockSleep(p)) && i < |s.procs|
    ensures var t := Next(s, LockSleep(p)); |t.procs| == |s.procs| == |t.at| && PlaceOk(t, i)
  {
    hide HasZombie, HasChild, SleepOk, ParentOk, Apart, NumbersOk;
    assert PlaceOk(s, i);
    if 0 <= s.procs[i].parent < |s.procs| { assert PlaceOk(s, s.procs[i].parent); }
    if s.at[i].Forking? { assert PlaceOk(s, s.at[i].c); }
  }

  lemma UnlockWakePlace(s: Sys, p: nat, i: nat)
    requires Inv(s) && Enabled(s, UnlockWake(p)) && i < |s.procs|
    ensures var t := Next(s, UnlockWake(p)); |t.procs| == |s.procs| == |t.at| && PlaceOk(t, i)
  {
    hide HasZombie, HasChild, SleepOk, ParentOk, Apart, NumbersOk;
    assert PlaceOk(s, i);
    if 0 <= s.procs[i].parent < |s.procs| { assert PlaceOk(s, s.procs[i].parent); }
    if s.at[i].Forking? { assert PlaceOk(s, s.at[i].c); }
  }

  lemma ShufflePlace(s: Sys, e: Step, i: nat)
    requires Inv(s) && Enabled(s, e) && Shuffles(e) && i < |s.procs|
    ensures |Next(s, e).procs| == |s.procs| == |Next(s, e).at| && PlaceOk(Next(s, e), i)
  {
    hide Next, PlaceOk, Switched, Enabled, ParentOk, SleepOk;
    if e.TryLock? || e.Unlock? {
      TryPlace(s, e, i);
    } else if e.LockSleep? {
      LockSleepPlace(s, e.p, i);
    } else if e.UnlockWake? {
      UnlockWakePlace(s, e.p, i);
    } else if e.WaitNone? || e.WaitSleep? {
      WaitPlace(s, e, i);
    } else {
      SwitchIs(s, e);
      SwitchSizes(s, Next(s, e));
      SwitchPlace(s, Next(s, e), i);
    }
  }

  lemma SwitchSizes(s: Sys, t: Sys)
    requires Switched(s, t)
    ensures |t.procs| == |s.procs| == |t.at|
  {
  }

  lemma ShuffleSleep(s: Sys, e: Step, i: nat)
    requires Inv(s) && Enabled(s, e) && Shuffles(e) && i < |s.procs|
    ensures |Next(s, e).procs| == |s.procs| == |Next(s, e).at| && SleepOk(Next(s, e), i)
  {
    hide Inv, Next, HasZombie, HasChild, ParentOk, Apart, SpinFree;
    ShuffleFamily(s, e);
    ShuffleWait(s, e, i);
    ShuffleAcquire(s, e, i);
  }

  /** Whoever is asleep in wait still has a child, and no zombie. */
  lemma ShuffleWait(s: Sys, e: Step, i: nat)
    requires Inv(s) && Enabled(s, e) && Shuffles(e) && i < |s.procs|
    ensures var t := Next(s, e);
            |t.procs| == |s.procs| == |t.at| &&
            (t.procs[i].state == SLEEPING && t.at[i] == InWait ==> HasChild(t.procs, i) && !HasZombie(t.procs, i))
  {
    hide HasZombie, HasChild, ParentOk, Apart, SpinFree, NumbersOk, HoldsSpin;
    assert ParentOk(s, i) && PlaceOk(s, i) && SleepOk(s, i);
    ShuffleFamily(s, e);
    FamilyParents(s, Next(s, e), i);
  }

  /** Whoever is asleep in acquiresleep is behind a lock that is held, or whose
      releaser is about to wake it. */
  lemma ShuffleAcquire(s: Sys, e: Step, i: nat)
    requires Inv(s) && Enabled(s, e) && Shuffles(e) && i < |s.procs|
    ensures var t := Next(s, e);
            |t.procs| == |s.procs| == |t.at| &&
            (t.procs[i].state == SLEEPING && t.at[i].InAcquire? ==>
               t.at[i].l in t.locked || exists q :: 0 <= q < |t.at| && t.at[q] == Waking(t.at[i].l))
  {
    hide HasZombie, HasChild, ParentOk, Apart, SpinFree, NumbersOk, FirstWith;
    assert PlaceOk(s, i) && SleepOk(s, i);
    var t := Next(s, e);
    if t.procs[i].state == SLEEPING && t.at[i].InAcquire? {
      var l := t.at[i].l;
      if e.LockSleep? && e.p == i {
      } else if e.Unlock? && e.l == l {
        assert t.at[e.p] == Waking(l);
      } else if l !in s.locked {
        var q :| 0 <= q < |s.at| && s.at[q] == Waking(l);
        assert PlaceOk(s, q);
        assert t.at[q] == Waking(l);
      }
    }
  }

  lemma ShuffleApart(s: Sys, e: Step)
    requires Inv(s) && Enabled(s, e) && Shuffles(e)
    ensures Apart(Next(s, e))
  {
    hide HasZombie, HasChild, ParentOk, SleepOk, PlaceOk;
  }

  // ---- fork

  predicate Forks(e: Step) {
    e.Alloc? || e.ForkFail? || e.ForkLink? || e.ForkDone?
  }

  lemma ForkParent(s: Sys, e: Step, i: nat)
    requires Inv(s) && Enabled(s, e) && Forks(e) && i < |s.procs|
    ensures |Next(s, e).procs| == |s.procs| == |Next(s, e).at| && ParentOk(Next(s, e), i)
  {
    hide HasZombie, HasChild, SleepOk, SpinFree, HoldsSpin, Apart, ParentOk, PlaceOk, NumbersOk;
    match e {
      case Alloc(p, c) => AllocParent(s, p, c, i);
      case ForkFail(p) => ForkFailParent(s, p, i);
      case ForkLink(p) => ForkLinkParent(s, p, i);
      case ForkDone(p) => ForkDoneParent(s, p, i);
    }
  }

  lemma AllocParent(s: Sys, p: nat, c: nat, i: nat)
    requires Inv(s) && Enabled(s, Alloc(p, c)) && i < |s.procs|
    ensures var t := Next(s, Alloc(p, c)); |t.procs| == |s.procs| == |t.at| && ParentOk(t, i)
  {
    hide HasZombie, HasChild, SleepOk, SpinFree, HoldsSpin, Apart, NumbersOk;
    assert ParentOk(s, i) && ParentOk(s, p) && PlaceOk(s, p) && ParentOk(s, s.init);
    var q := s.procs[i].parent;
    if 0 <= q < |s.procs| { assert ParentOk(s, q); }
  }

  lemma ForkFailParent(s: Sys, p: nat, i: nat)
    requires Inv(s) && Enabled(s, ForkFail(p)) && i < |s.procs|
    ensures var t := Next(s, ForkFail(p)); |t.procs| == |s.procs| == |t.at| && ParentOk(t, i)
  {
    hide HasZombie, HasChild, SleepOk, SpinFree, HoldsSpin, Apart, NumbersOk;
    assert ParentOk(s, i) && ParentOk(s, p) && PlaceOk(s, p) && ParentOk(s, s.init);
    var q := s.procs[i].parent;
    if 0 <= q < |s.procs| { assert ParentOk(s, q); }
  }

  lemma ForkLinkParent(s: Sys, p: nat, i: nat)
    requires Inv(s) && Enabled(s, ForkLink(p)) && i < |s.procs|
    ensures var t := Next(s, ForkLink(p)); |t.procs| == |s.procs| == |t.at| && ParentOk(t, i)
  {
    hide HasZombie, HasChild, SleepOk, SpinFree, HoldsSpin, Apart, NumbersOk;
    assert ParentOk(s, i) && ParentOk(s, p) && PlaceOk(s, p) && ParentOk(s, s.init);
    var q := s.procs[i].parent;
    if 0 <= q < |s.procs| { assert ParentOk(s, q); }
  }

  lemma ForkDoneParent(s: Sys, p: nat, i: nat)
    requires Inv(s) && Enabled(s, ForkDone(p)) && i < |s.procs|
    ensures var t := Next(s, ForkDone(p)); |t.procs| == |s.procs| == |t.at| && ParentOk(t, i)
  {
    hide HasZombie, HasChild, SleepOk, SpinFree, HoldsSpin, Apart, NumbersOk;
    assert ParentOk(s, i) && ParentOk(s, p) && PlaceOk(s, p) && ParentOk(s, s.init);
    var q := s.procs[i].parent;
    if 0 <= q < |s.procs| { assert ParentOk(s, q); }
  }

  lemma OneForker(s: Sys, i: nat, p: nat)
    requires Apart(s) && i < |s.at| && p < |s.at| && s.at[i].Forking? && i != p
    ensures s.at[i] != s.at[p]
  {
  }

  lemma AllocPlace(s: Sys, p: nat, c: nat, i: nat)
    requires Inv(s) && Enabled(s, Alloc(p, c)) && i < |s.procs|
    ensures var t := Next(s, Alloc(p, c)); |t.procs| == |s.procs| == |t.at| && PlaceOk(t, i)
  {
    hide HasZombie, HasChild, SleepOk, SpinFree, HoldsSpin, Apart, NumbersOk;
    assert PlaceOk(s, i) && ParentOk(s, p) && PlaceOk(s, p) && PlaceOk(s, c);
    if 0 <= s.procs[i].parent < |s.procs| { assert PlaceOk(s, s.procs[i].parent); }
  }

  lemma ForkFailPlace(s: Sys, p: nat, i: nat)
    requires Inv(s) && Enabled(s, ForkFail(p)) && i < |s.procs|
    ensures var t := Next(s, ForkFail(p)); |t.procs| == |s.procs| == |t.at| && PlaceOk(t, i)
  {
    hide HasZombie, HasChild, SleepOk, SpinFree, HoldsSpin, Apart, NumbersOk, ParentOk;
    assert PlaceOk(s, i) && PlaceOk(s, p);
    if 0 <= s.procs[i].parent < |s.procs| { assert PlaceOk(s, s.procs[i].parent); }
    if s.at[i].Forking? && i != p { OneForker(s, i, p); }
  }

  lemma ForkLinkPlace(s: Sys, p: nat, i: nat)
    requires Inv(s) && Enabled(s, ForkLink(p)) && i < |s.procs|
    ensures var t := Next(s, ForkLink(p)); |t.procs| == |s.procs| == |t.at| && PlaceOk(t, i)
  {
    hide HasZombie, HasChild, SleepOk, SpinFree, HoldsSpin, Apart, NumbersOk, ParentOk;
    assert PlaceOk(s, i) && PlaceOk(s, p);
    if s.at[i].Forking? && i != p { OneForker(s, i, p); }
  }

  lemma ForkDonePlace(s: Sys, p: nat, i: nat)
    requires Inv(s) && Enabled(s, ForkDone(p)) && i < |s.procs|
    ensures var t := Next(s, ForkDone(p)); |t.procs| == |s.procs| == |t.at| && PlaceOk(t, i)
  {
    hide HasZombie, HasChild, SleepOk, SpinFree, HoldsSpin, Apart, NumbersOk, ParentOk;
    assert PlaceOk(s, i) && PlaceOk(s, p);
    if 0 <= s.procs[i].parent < |s.procs| { assert PlaceOk(s, s.procs[i].parent); }
    if s.at[i].Forking? && i != p { OneForker(s, i, p); }
  }

  /** A slot being forked stays an EMBRYO of its forker alone until it is runnable. */
  lemma ForkPlace(s: Sys, e: Step, i: nat)
    requires Inv(s) && Enabled(s, e) && Forks(e) && i < |s.procs|
    ensures |Next(s, e).procs| == |s.procs| == |Next(s, e).at| && PlaceOk(Next(s, e), i)
  {
    hide Next, PlaceOk, Enabled, ParentOk, SleepOk;
    match e {
      case Alloc(p, c) => AllocPlace(s, p, c, i);
      case ForkFail(p) => ForkFailPlace(s, p, i);
      case ForkLink(p) => ForkLinkPlace(s, p, i);
      case ForkDone(p) => ForkDonePlace(s, p, i);
    }
  }

  lemma ForkSleep(s: Sys, e: Step, i: nat)
    requires Inv(s) && Enabled(s, e) && Forks(e) && i < |s.procs|
    ensures |Next(s, e).procs| == |s.procs| == |Next(s, e).at| && SleepOk(Next(s, e), i)
  {
    hide ParentOk, Apart;
    assert PlaceOk(s, i) && SleepOk(s, i) && PlaceOk(s, e.p);
    var t := Next(s, e);
    var c := if e.Alloc? then e.c else s.at[e.p].c;
    assert PlaceOk(s, c);
    if t.procs[i].state == SLEEPING {
      if t.at[i] == InWait {
        var j :| 0 <= j < |s.procs| && s.procs[j].parent == i;
        assert t.procs[j].parent == i;
      }
      if t.at[i].InAcquire? && t.at[i].l !in s.locked {
        var q :| 0 <= q < |s.at| && s.at[q] == Waking(t.at[i].l);
        assert t.at[q] == s.at[q];
      }
    }
  }

  lemma ForkApart(s: Sys, e: Step)
    requires Inv(s) && Enabled(s, e) && Forks(e)
    ensures Apart(Next(s, e))
  {
    hide HasZombie, HasChild, ParentOk, SleepOk;
    var t := Next(s, e);
    forall i, j | 0 <= i < |t.at| && 0 <= j < |t.at| && t.at[i].Forking? && t.at[i] == t.at[j] ensures i == j {
      assert PlaceOk(s, i) && PlaceOk(s, j);
    }
    forall i, j, l | 0 <= i < |t.at| && 0 <= j < |t.at| && HoldsSpin(t.at[i], l) && HoldsSpin(t.at[j], l)
      ensures i == j {
      assert HoldsSpin(s.at[i], l) && HoldsSpin(s.at[j], l);
    }
  }

  // ---- wait and exit

  lemma ReapNext(s: Sys, p: nat, z: nat, i: nat)
    requires Inv(s) && Enabled(s, Reap(p, z)) && i < |s.procs|
    ensures var t := Next(s, Reap(p, z));
            |t.procs| == |s.procs| == |t.at| && ParentOk(t, i) && PlaceOk(t, i)
  {
    hide HasZombie, HasChild, SleepOk, Apart;
    assert ParentOk(s, i) && PlaceOk(s, i) && ParentOk(s, p) && PlaceOk(s, p) && PlaceOk(s, z);
    var q := s.procs[i].parent;
    if 0 <= q < |s.procs| { assert ParentOk(s, q) && PlaceOk(s, q); }
  }

  lemma ReapSleep(s: Sys, p: nat, z: nat, i: nat)
    requires Inv(s) && Enabled(s, Reap(p, z)) && i < |s.procs|
    ensures var t := Next(s, Reap(p, z)); |t.procs| == |s.procs| == |t.at| && SleepOk(t, i)
  {
    hide ParentOk, Apart;
    assert PlaceOk(s, i) && SleepOk(s, i);
    var t := Next(s, Reap(p, z));
    if t.procs[i].state == SLEEPING {
      if t.at[i] == InWait {
        var j :| 0 <= j < |s.procs| && s.procs[j].parent == i;
        assert t.procs[j].parent == i;
      }
      if t.at[i].InAcquire? && t.at[i].l !in s.locked {
        var q :| 0 <= q < |s.at| && s.at[q] == Waking(t.at[i].l);
        assert t.at[q] == s.at[q];
      }
    }
  }

  /** What exit leaves in each slot. */
  lemma ExitedAt(ps: seq<Proc>, init: nat, cur: nat, i: nat)
    requires cur < |ps| && i < |ps| && init < |ps|
    requires ps[cur].state == RUNNING
    ensures var r := Exited(ps, init, cur);
            && r[i].pid == ps[i].pid && r[i].chan == ps[i].chan && r[i].killed == ps[i].killed
            && r[i].parent == (if ps[i].parent == cur then init else ps[i].parent)
            && r[i].state == (if i == cur then ZOMBIE
                              else if ps[i].state == SLEEPING
                                      && ((ps[cur].parent >= 0 && ps[i].chan == OfProc(ps[cur].parent))
                                          || (ps[cur].parent < 0 && ps[i].chan == NoChan)
                                          || (HasZombie(ps, cur) && ps[i].chan == OfProc(init))) then RUNNABLE
                              else ps[i].state)
  {
    hide HasZombie;
  }

  lemma ExitNext(s: Sys, p: nat, i: nat)
    requires Inv(s) && Enabled(s, Exit(p)) && i < |s.procs|
    ensures var t := Next(s, Exit(p));
            |t.procs| == |s.procs| == |t.at| && ParentOk(t, i) && PlaceOk(t, i)
  {
    ExitParent(s, p, i);
    hide HasZombie, HasChild, SleepOk, Apart, Exited, ParentOk;
    assert PlaceOk(s, i) && PlaceOk(s, p);
    ExitedAt(s.procs, s.init, p, i);
    if s.at[i].Forking? { ExitedAt(s.procs, s.init, p, s.at[i].c); }
  }

  lemma ExitParent(s: Sys, p: nat, i: nat)
    requires Inv(s) && Enabled(s, Exit(p)) && i < |s.procs|
    ensures var t := Next(s, Exit(p)); |t.procs| == |s.procs| == |t.at| && ParentOk(t, i)
  {
    hide HasZombie, HasChild, SleepOk, Apart, Exited;
    assert ParentOk(s, i) && PlaceOk(s, i) && ParentOk(s, s.init) && PlaceOk(s, s.init) && PlaceOk(s, p);
    ExitedAt(s.procs, s.init, p, i);
    ExitedAt(s.procs, s.init, p, s.init);
    var q := s.procs[i].parent;
    if 0 <= q < |s.procs| {
      assert ParentOk(s, q) && PlaceOk(s, q);
      ExitedAt(s.procs, s.init, p, q);
    }
  }

  lemma ExitSleep(s: Sys, p: nat, i: nat)
    requires Inv(s) && Enabled(s, Exit(p)) && i < |s.procs|
    ensures var t := Next(s, Exit(p)); |t.procs| == |s.procs| == |t.at| && SleepOk(t, i)
  {
    hide Apart, Exited;
    assert ParentOk(s, p) && PlaceOk(s, p) && PlaceOk(s, i) && SleepOk(s, i);
    ExitedAt(s.procs, s.init, p, i);
    var t := Next(s, Exit(p));
    if t.procs[i].state == SLEEPING {
      if t.at[i] == InWait {
        var j :| 0 <= j < |s.procs| && s.procs[j].parent == i;
        ExitedAt(s.procs, s.init, p, j);
        assert t.procs[j].parent == i;
        forall k | 0 <= k < |s.procs| && t.procs[k].parent == i ensures t.procs[k].state != ZOMBIE {
          ExitedAt(s.procs, s.init, p, k);
        }
      }
    }
  }

  lemma NumbersNext(s: Sys, e: Step)
    requires Inv(s) && Enabled(s, e)
    ensures NumbersOk(Next(s, e))
  {
    hide HasZombie, HasChild, SpinFree, Apart, SleepOk, HoldsSpin, Exited, FirstWith, ParentOk, PlaceOk;
    if e.Exit? {
      NumbersExit(s, e.p);
    } else if e.Alloc? {
      NumbersAlloc(s, e);
    } else if e.ForkDone? {
      NumbersFork(s, e);
    }
  }

  lemma NumbersExit(s: Sys, p: nat)
    requires Inv(s) && Enabled(s, Exit(p))
    ensures NumbersOk(Next(s, Exit(p)))
  {
    hide HasZombie, HasChild, SpinFree, Apart, SleepOk, HoldsSpin, Exited, FirstWith, ParentOk, PlaceOk;
    forall i | 0 <= i < |s.procs|
      ensures var r := Exited(s.procs, s.init, p);
              r[i].pid == s.procs[i].pid && (s.procs[i].state == UNUSED ==> r[i].state == UNUSED)
    {
      ExitedAt(s.procs, s.init, p, i);
    }
  }

  lemma NumbersAlloc(s: Sys, e: Step)
    requires Inv(s) && Enabled(s, e) && e.Alloc?
    ensures NumbersOk(Next(s, e))
  {
    hide HasZombie, HasChild, SpinFree, Apart, SleepOk, HoldsSpin, Exited, FirstWith, PlaceOk;
    forall i | 0 <= i < |s.procs| ensures s.procs[i].pid < s.nextpid { assert ParentOk(s, i); }
  }

  lemma NumbersFork(s: Sys, e: Step)
    requires Inv(s) && Enabled(s, e) && e.ForkDone?
    ensures NumbersOk(Next(s, e))
  {
    hide HasZombie, HasChild, SpinFree, Apart, SleepOk, HoldsSpin, Exited, FirstWith, ParentOk;
    assert PlaceOk(s, e.p);
  }

  lemma InvNext(s: Sys, e: Step)
    requires Inv(s) && Enabled(s, e)
    ensures Inv(Next(s, e))
  {
    NumbersNext(s, e);
    hide NumbersOk, ParentOk, PlaceOk, SleepOk, Apart, HasZombie, HasChild, SpinFree;
    var t := Next(s, e);
    if Shuffles(e) {
      ShuffleApart(s, e);
    } else if e.Exit? || e.Reap? {
      SameApart(s, t, e.p);
    } else {
      ForkApart(s, e);
    }
    assert |t.procs| == |s.procs| == |t.at| && t.init == s.init;
    forall i | 0 <= i < |s.procs|
      ensures |t.procs| == |s.procs| == |t.at| && ParentOk(t, i) && PlaceOk(t, i) && SleepOk(t, i)
    {
      if Shuffles(e) {
        ShuffleFamily(s, e);
        FamilyParents(s, t, i);
        ShufflePlace(s, e, i);
        ShuffleSleep(s, e, i);
      } else if e.Exit? {
        ExitNext(s, e.p, i);
        ExitSleep(s, e.p, i);
      } else if e.Reap? {
        ReapNext(s, e.p, e.z, i);
        ReapSleep(s, e.p, e.z, i);
      } else {
        ForkParent(s, e, i);
        ForkPlace(s, e, i);
        ForkSleep(s, e, i);
      }
    }
  }

  lemma SameApart(s: Sys, t: Sys, p: nat)
    requires Apart(s) && p < |s.at| && (t.at == s.at || t.at == s.at[p := Free])
    ensures Apart(t)
  {
  }

  // ---- runs

  /** t is where a run that begins at s and takes these steps ends. */
  ghost predicate Runs(s: Sys, steps: seq<Step>, t: Sys)
    decreases |steps|
  {
    if steps == [] then t == s
    else
      var n := |steps| - 1;
      exists u :: Runs(s, steps[..n], u) && Enabled(u, steps[n]) && t == Next(u, steps[n])
  }

  /** Every state of every run: all processes, however they interleave. */
  lemma {:induction false} InvReachable(s: Sys, steps: seq<Step>, t: Sys)
    requires Initial(s) && Runs(s, steps, t)
    ensures Inv(t)
    decreases |steps|
  {
    hide Inv, Initial, Next;
    if steps == [] {
      InvInit(s);
    } else {
      var n := |steps| - 1;
      var u :| Runs(s, steps[..n], u) && Enabled(u, steps[n]) && t == Next(u, steps[n]);
      InvReachable(s, steps[..n], u);
      InvNext(u, steps[n]);
    }
  }

  // ---- what that gives

  /** The ancestors of i lead to init in at most k steps. */
  ghost predicate Descends(s: Sys, i: int, k: nat)
    decreases k
  {
    || i == s.init
    || (k > 0 && 0 <= i < |s.procs| && Descends(s, s.procs[i].parent, k - 1))
  }

  /** The live processes and zombies are one tree, with init at the root. */
  lemma {:induction false} OneTree(s: Sys, i: nat)
    requires Inv(s) && i < |s.procs| && (Alive(s.procs[i].state) || s.procs[i].state == ZOMBIE)
    ensures Descends(s, i, s.procs[i].pid + 1)
    decreases s.procs[i].pid
  {
    hide PlaceOk, SleepOk, Apart;
    assert ParentOk(s, i);
    var p := s.procs[i].parent;
    if i != s.init && p != s.init {
      OneTree(s, p);
      DescendsMore(s, p, s.procs[p].pid + 1, s.procs[i].pid);
    }
  }

  lemma {:induction false} DescendsMore(s: Sys, i: int, k: nat, m: nat)
    requires Descends(s, i, k) && k <= m
    ensures Descends(s, i, m)
    decreases k
  {
    if i != s.init { DescendsMore(s, s.procs[i].parent, k - 1, m - 1); }
  }

  /** Somebody who sleeps is told by an exit exactly if he waits for the process that
      exits, or is init waiting and inherits a zombie from it. */
  lemma ExitTells(s: Sys, p: nat, q: nat)
    requires Inv(s) && Enabled(s, Exit(p)) && q < |s.procs| && s.procs[q].state == SLEEPING
    ensures var t := Next(s, Exit(p));
            && |t.procs| == |s.procs|
            && (Enabled(t, Dispatch(q)) <==>
                  s.at[q] == InWait && (s.procs[p].parent == q || (q == s.init && HasZombie(s.procs, p))))
            && (!Enabled(t, Dispatch(q)) ==> t.procs[q].state == SLEEPING && t.procs[q].chan == s.procs[q].chan)
  {
    hide HasZombie, Exited, Apart;
    assert PlaceOk(s, q) && ParentOk(s, p) && ParentOk(s, s.init);
    ExitedAt(s.procs, s.init, p, q);
  }

  /** And then he finds the zombie: a parent asleep in wait can reap once the child
      has exited. */
  lemma ExitReaped(s: Sys, p: nat, q: nat) returns (z: nat)
    requires Inv(s) && Enabled(s, Exit(p)) && q < |s.procs| && s.procs[q].state == SLEEPING && s.at[q] == InWait
    requires s.procs[p].parent == q
    ensures var t := Next(s, Exit(p)); Enabled(t, Dispatch(q)) && Enabled(Next(t, Dispatch(q)), Reap(q, z))
  {
    ExitTells(s, p, q);
    ZombieLeft(s, p, q);
    var u := Next(Next(s, Exit(p)), Dispatch(q));
    z := FirstZombie(u.procs, q);
  }

  lemma ZombieLeft(s: Sys, p: nat, q: nat)
    requires Inv(s) && Enabled(s, Exit(p)) && q < |s.procs| && s.procs[q].state == SLEEPING
    requires s.procs[p].parent == q && Enabled(Next(s, Exit(p)), Dispatch(q))
    ensures HasZombie(Next(Next(s, Exit(p)), Dispatch(q)).procs, q) && Next(s, Exit(p)).at == s.at
  {
    hide Exited, Apart, SleepOk, ParentOk;
    assert PlaceOk(s, p);
    ExitedAt(s.procs, s.init, p, p);
    var u := Next(Next(s, Exit(p)), Dispatch(q));
    assert u.procs[p].parent == q && u.procs[p].state == ZOMBIE;
  }

  lemma FirstZombie(ps: seq<Proc>, q: nat) returns (z: nat)
    requires HasZombie(ps, q)
    ensures z < |ps| && ps[z].parent == q && ps[z].state == ZOMBIE
    ensures forall k :: 0 <= k < z ==> !(ps[k].parent == q && ps[k].state == ZOMBIE)
  {
    z := 0;
    while z < |ps| && !(ps[z].parent == q && ps[z].state == ZOMBIE)
      invariant z <= |ps| && forall k :: 0 <= k < z ==> !(ps[k].parent == q && ps[k].state == ZOMBIE)
    {
      z := z + 1;
    }
  }

  /** The three steps of a fork, with nothing between them, give a process that can
      run, whose parent is the one that forked and whose number was nobody's. */
  lemma ForkBears(s: Sys, p: nat, c: nat)
    requires Inv(s) && Enabled(s, Alloc(p, c))
    ensures var t := Next(s, Alloc(p, c));
            && Enabled(t, ForkLink(p)) && var u := Next(t, ForkLink(p));
            Enabled(u, ForkDone(p)) && var v := Next(u, ForkDone(p));
            && Enabled(v, Dispatch(c)) && v.procs[c].parent == p && v.at[p] == Free && v.nextpid == s.nextpid + 1
            && (forall i :: 0 <= i < |s.procs| ==> s.procs[i].pid != v.procs[c].pid)
            && (forall i :: 0 <= i < |s.procs| && i != c ==> v.procs[i] == s.procs[i])
  {
    hide HasZombie, HasChild, SleepOk, Apart, NumbersOk;
    assert PlaceOk(s, c);
    forall i | 0 <= i < |s.procs| ensures s.procs[i].pid < s.nextpid { assert ParentOk(s, i); }
  }

  /** A sleep lock has one holder at a time: it is taken exactly by an acquire that
      finds it free, and stays taken until it is released. */
  lemma LockedNext(s: Sys, e: Step, l: nat)
    requires Inv(s) && Enabled(s, e)
    ensures l in Next(s, e).locked <==>
            (l in s.locked && !(e.Unlock? && e.l == l)) || (l !in s.locked && e.TryLock? && e.l == l)
    ensures e.TryLock? ==> (Next(s, e).at[e.p] == Free <==> e.l !in s.locked)
  {
    hide HasZombie, HasChild, SleepOk, PlaceOk, ParentOk, NumbersOk, Apart;
  }

  /** A process that has found the lock taken sleeps on it, and the release that
      follows wakes it. */
  lemma LockRouses(s: Sys, p: nat, q: nat, l: nat)
    requires Inv(s) && q < |s.procs| && s.procs[q].state == SLEEPING && p != q
    requires Running(s, p) && s.at[p] == Waking(l)
    ensures Enabled(Next(s, UnlockWake(p)), Dispatch(q)) <==> s.procs[q].chan == OfLock(l)
  {
  }

  // ---- kill and free slots

  /** A free slot that carries the mark of a kill. */
  predicate MarkedFree(s: Sys, c: nat)
    requires c < |s.procs|
  {
    s.procs[c].state == UNUSED && s.procs[c].killed
  }

  /** A new process is born killed exactly if its free slot was marked. */
  lemma BornKilledIff(s: Sys, p: nat, c: nat)
    requires Enabled(s, Alloc(p, c))
    ensures Next(s, Alloc(p, c)).procs[c].state == EMBRYO
    ensures Next(s, Alloc(p, c)).procs[c].killed <==> MarkedFree(s, c)
  {
  }

  /** kill of a number somebody has: that slot is marked and is not left asleep, a
      process that slept can be dispatched at once, and nothing else differs. */
  lemma KillRouses(s: Sys, n: nat, c: nat)
    requires Inv(s) && FirstWith(s.procs, n) == c < |s.procs|
    ensures var t := Next(s, Kill(n));
            && |t.procs| == |s.procs| && t.procs[c].killed && t.procs[c].state != SLEEPING
            && (s.procs[c].state == SLEEPING ==> Enabled(t, Dispatch(c)))
            && (s.procs[c].state != SLEEPING ==> t.procs[c].state == s.procs[c].state)
            && t.procs[c] == s.procs[c].(killed := true, state := t.procs[c].state)
            && t == s.(procs := t.procs) && forall i :: 0 <= i < |s.procs| && i != c ==> t.procs[i] == s.procs[i]
  {
  }

  /** A process killed in its sleep runs next with the mark set, so the tests behind
      its sleep see it: in wait it can leave even with children alive. */
  lemma KilledLeavesWait(s: Sys, n: nat, c: nat)
    requires Inv(s) && FirstWith(s.procs, n) == c < |s.procs| && s.procs[c].state == SLEEPING && s.at[c] == InWait
    ensures var t := Next(s, Kill(n));
            Enabled(t, Dispatch(c)) && Enabled(Next(t, Dispatch(c)), WaitNone(c))
  {
    hide HasZombie, ParentOk, PlaceOk, Apart, NumbersOk;
    assert SleepOk(s, c);
    var t := Next(s, Kill(n));
    var u := Next(t, Dispatch(c));
    assert u.procs[c].killed && u.procs[c].state == RUNNING;
    if HasZombie(u.procs, c) {
      ZombieKept(s.procs, u.procs, c);
    }
  }

  lemma ZombieKept(ps: seq<Proc>, qs: seq<Proc>, c: nat)
    requires |qs| == |ps| && HasZombie(qs, c) && c < |ps| && ps[c].state == SLEEPING && qs[c].state == RUNNING
    requires forall i :: 0 <= i < |ps| && i != c ==> qs[i] == ps[i]
    ensures HasZombie(ps, c)
  {
    var j :| 0 <= j < |qs| && qs[j].parent == c && qs[j].state == ZOMBIE;
    assert ps[j].parent == c && ps[j].state == ZOMBIE;
  }

  /** Whoever sleeps on a channel is woken by a wakeup of that channel and by no
      other. */
  lemma WokenIff(s: Sys, p: nat, n: nat, m: nat)
    requires Inv(s) && Enabled(s, SleepOn(p, n))
    ensures var t := Next(s, SleepOn(p, n));
            && Enabled(t, Wakeup(m)) && (Enabled(Next(t, Wakeup(m)), Dispatch(p)) <==> m == n)
            && (forall i :: 0 <= i < |s.procs| && i != p && s.procs[i].state == SLEEPING ==>
                  (Enabled(Next(t, Wakeup(m)), Dispatch(i)) <==> s.procs[i].chan == Other(m)))
  {
  }

  /** Once a zombie has been waited for, its number finds nobody. */
  lemma ReapedGone(s: Sys, p: nat, z: nat)
    requires Inv(s) && Enabled(s, Reap(p, z))
    ensures s.procs[z].pid != 0 && FirstWith(Next(s, Reap(p, z)).procs, s.procs[z].pid) == |s.procs|
    ensures Next(Next(s, Reap(p, z)), Kill(s.procs[z].pid)) == Next(s, Reap(p, z))
    ensures forall c :: 0 <= c < |s.procs| && c != z ==> Next(s, Reap(p, z)).procs[c] == s.procs[c]
  {
    hide ParentOk, PlaceOk, SleepOk, Apart, HasZombie, HasChild;
    assert s.procs[z].state == ZOMBIE;
  }

  /** kill hits free slot c exactly if the slot still stores that number; of the
      slots that store 0, it hits the first. */
  lemma KillHits(s: Sys, n: nat, c: nat)
    requires Inv(s) && c < |s.procs|
    ensures n != 0 ==> (FirstWith(s.procs, n) == c <==> s.procs[c].pid == n)
    ensures n == 0 ==> (FirstWith(s.procs, n) == c <==>
                          s.procs[c].pid == 0 && forall k :: 0 <= k < c ==> s.procs[k].pid != 0)
  {
  }

  /** A slot is free and marked after a step exactly if it was and stays free, or
      the step is a kill that hits it while free, or a fork that fails after its
      EMBRYO was killed. */
  lemma MarkedFreeNext(s: Sys, e: Step, c: nat)
    requires Inv(s) && Enabled(s, e) && c < |s.procs|
    ensures |Next(s, e).procs| == |s.procs|
    ensures MarkedFree(Next(s, e), c) <==>
            || (MarkedFree(s, c) && !(e.Alloc? && e.c == c))
            || (e.Kill? && FirstWith(s.procs, e.n) == c && s.procs[c].state == UNUSED)
            || (e.ForkFail? && s.at[e.p].c == c && s.procs[c].killed)
  {
    hide HasZombie, HasChild, SpinFree, Apart, SleepOk, HoldsSpin, Exited, FirstWith;
    assert PlaceOk(s, c);
    if e.Exit? { ExitedAt(s.procs, s.init, e.p, c); }
    if e.ForkFail? { assert PlaceOk(s, e.p); }
  }

  /** The steps that mark a free slot, as their callers can tell. */
  predicate Marks(s: Sys, e: Step)
    requires Enabled(s, e)
  {
    match e
    case Kill(n) => FirstWith(s.procs, n) < |s.procs| && s.procs[FirstWith(s.procs, n)].state == UNUSED
    case ForkFail(p) => s.procs[s.at[p].c].killed
    case _ => false
  }

  /** Whoever is born killed has such a step to blame. */
  lemma {:induction false} BornKilledNeedsMark(s: Sys, steps: seq<Step>, t: Sys, c: nat) returns (i: nat, u: Sys)
    requires Initial(s) && Runs(s, steps, t) && c < |t.procs| && MarkedFree(t, c)
    ensures i < |steps| && Runs(s, steps[..i], u) && Enabled(u, steps[i]) && Marks(u, steps[i])
    decreases |steps|
  {
    hide Inv, Next, FirstWith;
    if steps == [] {
      assert false;
    } else {
      i := |steps| - 1;
      u :| Runs(s, steps[..i], u) && Enabled(u, steps[i]) && t == Next(u, steps[i]);
      InvReachable(s, steps[..i], u);
      SameSlots(u, steps[i]);
      MarkedFreeNext(u, steps[i], c);
      if !Marks(u, steps[i]) {
        var n := i;
        i, u := BornKilledNeedsMark(s, steps[..n], u, c);
        assert steps[..n][..i] == steps[..i];
      }
    }
  }

  lemma SameSlots(s: Sys, e: Step)
    requires Enabled(s, e)
    ensures |Next(s, e).procs| == |s.procs|
  {
  }

  lemma RunsMore(s: Sys, steps: seq<Step>, u: Sys, e: Step)
    requires Runs(s, steps, u) && Enabled(u, e)
    ensures Runs(s, steps + [e], Next(u, e))
  {
    hide Enabled, Next;
    assert (steps + [e])[..|steps|] == steps;
  }

  /** Init and one free slot, after boot. */
  function Booted(): Sys {
    Sys([Proc(RUNNABLE, 1, NOBODY, NoChan, false), Proc(UNUSED, 0, NOBODY, NoChan, false)], [Free, Free], 0, {}, 2)
  }

  /** From boot: kill(0), and then a fork, whose child runs killed. */
  lemma KillZeroRun() returns (steps: seq<Step>, t: Sys)
    ensures Initial(Booted()) && steps == [Dispatch(0), Kill(0), Alloc(0, 1), ForkLink(0), ForkDone(0)]
    ensures Runs(Booted(), steps, t) && |t.procs| == 2 && t.procs[1].state == RUNNABLE && t.procs[1].killed
  {
    var s0 := Booted();
    RunsMore(s0, [], s0, Dispatch(0));
    steps, t := [Dispatch(0)], Next(s0, Dispatch(0));
    FirstFree(t.procs);
    RunsMore(s0, steps, t, Kill(0));
    steps, t := steps + [Kill(0)], Next(t, Kill(0));
    RunsMore(s0, steps, t, Alloc(0, 1));
    steps, t := steps + [Alloc(0, 1)], Next(t, Alloc(0, 1));
    RunsMore(s0, steps, t, ForkLink(0));
    steps, t := steps + [ForkLink(0)], Next(t, ForkLink(0));
    RunsMore(s0, steps, t, ForkDone(0));
    steps, t := steps + [ForkDone(0)], Next(t, ForkDone(0));
  }

  /** Init runs, and slot 1 has got number 2. */
  function Second(state: RunState, killed: bool, w: Where): Sys {
    Sys([Proc(RUNNING, 1, NOBODY, NoChan, false), Proc(state, 2, NOBODY, NoChan, killed)], [w, Free], 0, {}, 3)
  }

  lemma SecondStarts()
    ensures Runs(Booted(), [Dispatch(0), Alloc(0, 1)], Second(EMBRYO, false, Forking(1)))
  {
    hide Next, Enabled, Runs;
    var s0 := Booted();
    FirstRuns();
    RunsNone(s0);
    RunsMore(s0, [], s0, Dispatch(0));
    assert [] + [Dispatch(0)] == [Dispatch(0)];
    RunsMore(s0, [Dispatch(0)], Dispatched(), Alloc(0, 1));
    assert [Dispatch(0)] + [Alloc(0, 1)] == [Dispatch(0), Alloc(0, 1)];
  }

  function Dispatched(): Sys {
    Booted().(procs := Booted().procs[0 := Booted().procs[0].(state := RUNNING)])
  }

  lemma FirstRuns()
    ensures Enabled(Booted(), Dispatch(0)) && Next(Booted(), Dispatch(0)) == Dispatched()
    ensures Enabled(Dispatched(), Alloc(0, 1)) && Next(Dispatched(), Alloc(0, 1)) == Second(EMBRYO, false, Forking(1))
  {
  }

  lemma RunsNone(s: Sys)
    ensures Runs(s, [], s)
  {
  }

  lemma SecondKilled(state: RunState, w: Where)
    requires state == UNUSED || state == EMBRYO
    ensures Next(Second(state, false, w), Kill(2)) == Second(state, true, w)
  {
    SecondSlot(Second(state, false, w).procs);
  }

  lemma SecondFails(killed: bool)
    ensures Enabled(Second(EMBRYO, killed, Forking(1)), ForkFail(0))
    ensures Next(Second(EMBRYO, killed, Forking(1)), ForkFail(0)) == Second(UNUSED, killed, Free)
  {
  }

  /** From boot: a fork that fails leaves its number in the slot, a kill of that
      number marks it, and the next fork's child is killed. The kill may also come
      while the first child is still an EMBRYO. */
  lemma KillStaleRun(early: bool) returns (steps: seq<Step>, t: Sys)
    ensures steps == [Dispatch(0), Alloc(0, 1)] + (if early then [Kill(2), ForkFail(0)] else [ForkFail(0), Kill(2)])
              + [Alloc(0, 1)]
    ensures Initial(Booted()) && Runs(Booted(), steps, t)
    ensures |t.procs| == 2 && t.procs[1].state == EMBRYO && t.procs[1].killed
  {
    hide Next, Enabled, Runs;
    var s0 := Booted();
    SecondStarts();
    steps, t := [Dispatch(0), Alloc(0, 1)], Second(EMBRYO, false, Forking(1));
    SecondKilled(EMBRYO, Forking(1));
    SecondKilled(UNUSED, Free);
    SecondFails(early);
    SecondAgain();
    var a, b := if early then Kill(2) else ForkFail(0), if early then ForkFail(0) else Kill(2);
    KillEnabled(t, 2);
    RunsMore(s0, steps, t, a);
    steps, t := steps + [a], Next(t, a);
    KillEnabled(t, 2);
    RunsMore(s0, steps, t, b);
    steps, t := steps + [b], Next(t, b);
    RunsMore(s0, steps, t, Alloc(0, 1));
    steps, t := steps + [Alloc(0, 1)], Next(t, Alloc(0, 1));
  }

  lemma KillEnabled(s: Sys, n: nat)
    ensures Enabled(s, Kill(n))
  {
  }

  lemma SecondAgain()
    ensures Enabled(Second(UNUSED, true, Free), Alloc(0, 1))
    ensures var t := Next(Second(UNUSED, true, Free), Alloc(0, 1));
            |t.procs| == 2 && t.procs[1].state == EMBRYO && t.procs[1].killed
  {
  }

  lemma FirstFree(ps: seq<Proc>)
    requires |ps| == 2 && ps[0].pid == 1 && ps[1].pid == 0
    ensures FirstWith(ps, 0) == 1
  {
  }

  lemma SecondSlot(ps: seq<Proc>)
    requires |ps| == 2 && ps[0].pid == 1 && ps[1].pid == 2
    ensures FirstWith(ps, 2) == 1
  {
  }
}
