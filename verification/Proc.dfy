/** The process table of proc.c, updated in place. Each method is what runs while
    ptable.lock is held. */
module Proc {
  import opened Params
  import opened Processes

  datatype WaitResult = Found(pid: nat, z: nat) | Nothing | Sleeps

  class Table {
    var procs: seq<Proc>
    var nextpid: nat

    /** wakeup1 */
    method Wakeup1(c: Chan)
      modifies `procs
      ensures procs == Wake(old(procs), c)
    {
      var i := 0;
      while i < |procs|
        invariant i <= |procs| == |old(procs)|
        invariant forall k :: 0 <= k < |procs| ==> procs[k] == if k < i then Roused(old(procs)[k], c) else old(procs)[k]
      {
        if procs[i].state == SLEEPING && procs[i].chan == c {
          procs := procs[i := procs[i].(state := RUNNABLE)];
        }
        i := i + 1;
      }
    }

    /** The locked part of allocproc: the first free slot, if there is one. */
    method Allocproc() returns (c: int)
      modifies this
      ensures -1 <= c < |procs| == |old(procs)|
      ensures forall k :: 0 <= k < (if c < 0 then |procs| else c) ==> procs[k].state != UNUSED
      ensures c < 0 ==> procs == old(procs) && nextpid == old(nextpid)
      ensures c >= 0 ==> old(procs)[c].state == UNUSED && nextpid == old(nextpid) + 1
      ensures c >= 0 ==> procs == old(procs)[c := old(procs)[c].(state := EMBRYO, pid := old(nextpid))]
    {
      var i := 0;
      while i < |procs|
        invariant i <= |procs| && procs == old(procs) && nextpid == old(nextpid)
        invariant forall k :: 0 <= k < i ==> procs[k].state != UNUSED
      {
        if procs[i].state == UNUSED {
          procs := procs[i := procs[i].(state := EMBRYO, pid := nextpid)];
          nextpid := nextpid + 1;
          return i;
        }
        i := i + 1;
      }
      return -1;
    }

    /** The locked part of exit. */
    method Exit(init: nat, cur: nat)
      requires cur < |procs| && cur != init
      modifies `procs
      ensures procs == Exited(old(procs), init, cur)
    {
      hide HasZombie;
      ghost var was := procs;
      Wakeup1(ParentChan(procs[cur]));
      ghost var woken := procs;
      var i := 0;
      while i < |procs|
        invariant i <= |procs| == |was|
        invariant forall k :: 0 <= k < |was| ==> procs[k] == Passed(was, woken, init, cur, i, k)
      {
        ZombieAfter(was, cur, i);
        if procs[i].parent == cur {
          procs := procs[i := procs[i].(parent := init)];
          if procs[i].state == ZOMBIE {
            Wakeup1(OfProc(init));
          }
        }
        i := i + 1;
      }
      ZombieAll(was, cur);
      procs := procs[cur := procs[cur].(state := ZOMBIE)];
      assert procs == Exited(was, init, cur);
    }

    /** One pass of the loop in wait, up to the point where it gives the lock up. */
    method Wait(cur: nat) returns (o: WaitResult)
      requires cur < |procs|
      modifies `procs
      ensures match o
              case Found(pid, z) =>
                && z < |old(procs)| && old(procs)[z].parent == cur && old(procs)[z].state == ZOMBIE
                && (forall k :: 0 <= k < z ==> !(old(procs)[k].parent == cur && old(procs)[k].state == ZOMBIE))
                && pid == old(procs)[z].pid && procs == Reaped(old(procs), z)
              case Nothing =>
                && procs == old(procs) && !HasZombie(procs, cur) && (!HasChild(procs, cur) || procs[cur].killed)
              case Sleeps =>
                && !HasZombie(old(procs), cur) && HasChild(old(procs), cur) && !old(procs)[cur].killed
                && procs == old(procs)[cur := old(procs)[cur].(state := SLEEPING, chan := OfProc(cur))]
    {
      var havekids := false;
      var i := 0;
      while i < |procs|
        invariant i <= |procs| && procs == old(procs)
        invariant forall k :: 0 <= k < i ==> !(procs[k].parent == cur && procs[k].state == ZOMBIE)
        invariant havekids <==> exists k :: 0 <= k < i && procs[k].parent == cur
      {
        if procs[i].parent == cur {
          havekids := true;
          if procs[i].state == ZOMBIE {
            var pid := procs[i].pid;
            procs := procs[i := procs[i].(pid := 0, parent := NOBODY, killed := false, state := UNUSED)];
            return Found(pid, i);
          }
        }
        i := i + 1;
      }
      if !havekids || procs[cur].killed {
        return Nothing;
      }
      procs := procs[cur := procs[cur].(chan := OfProc(cur), state := SLEEPING)];
      return Sleeps;
    }

    /** kill marks the first slot with that number. */
    method Kill(pid: nat) returns (r: int)
      modifies `procs
      ensures r == (if FirstWith(procs, pid) < |procs| then 0 else -1)
      ensures procs == KilledBy(old(procs), pid)
    {
      var i := 0;
      while i < |procs|
        invariant i <= |procs| && procs == old(procs) && FirstWith(procs, pid) == FirstFrom(procs, pid, i)
      {
        if procs[i].pid == pid {
          procs := procs[i := procs[i].(killed := true)];
          if procs[i].state == SLEEPING {
            procs := procs[i := procs[i].(state := RUNNABLE)];
          }
          assert procs == KilledAt(old(procs), i);
          SameNumbers(old(procs), procs, pid, 0);
          return 0;
        }
        i := i + 1;
      }
      return -1;
    }
  }

  lemma {:induction false} SameNumbers(ps: seq<Proc>, qs: seq<Proc>, n: nat, i: nat)
    requires |ps| == |qs| && i <= |ps| && forall k :: 0 <= k < |ps| ==> ps[k].pid == qs[k].pid
    ensures FirstFrom(ps, n, i) == FirstFrom(qs, n, i)
    decreases |ps| - i
  {
    if i < |ps| { SameNumbers(ps, qs, n, i + 1); }
  }

  /** A zombie child of cur among the first n slots. */
  ghost predicate ZombieBefore(ps: seq<Proc>, cur: nat, n: nat)
    requires n <= |ps|
  {
    exists j :: 0 <= j < n && ps[j].parent == cur && ps[j].state == ZOMBIE
  }

  lemma ZombieAfter(ps: seq<Proc>, cur: nat, n: nat)
    requires n < |ps|
    ensures ZombieBefore(ps, cur, n + 1) <==> ZombieBefore(ps, cur, n) || (ps[n].parent == cur && ps[n].state == ZOMBIE)
  {
    if ZombieBefore(ps, cur, n) {
      var j :| 0 <= j < n && ps[j].parent == cur && ps[j].state == ZOMBIE;
      assert j < n + 1;
    }
  }

  lemma ZombieAll(ps: seq<Proc>, cur: nat)
    ensures ZombieBefore(ps, cur, |ps|) <==> HasZombie(ps, cur)
  {
  }

  /** Slot k when exit has looked at the first n slots. */
  ghost function Passed(was: seq<Proc>, woken: seq<Proc>, init: nat, cur: nat, n: nat, k: nat): Proc
    requires n <= |was| == |woken| && k < |was|
  {
    var q := if ZombieBefore(was, cur, n) then Roused(woken[k], OfProc(init)) else woken[k];
    if k < n && was[k].parent == cur then q.(parent := init) else q
  }
}
