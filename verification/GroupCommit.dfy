/** Group commit as a step machine.  A step is the code a process runs between
    acquiring and releasing log.lock, or one that needs no lock; steps of
    different processes interleave freely. */
module GroupCommit {
  import opened Params

  /** log.lh.n, log.outstanding, log.committing. */
  datatype Counters = Counters(n: nat, outstanding: int, committing: bool)

  /** The test begin_op makes: may one more operation start? */
  predicate Admits(c: Counters) {
    !c.committing && c.n + (c.outstanding + 1) * MAXOPBLOCKS <= LOGSIZE
  }

  function Begun(c: Counters): Counters {
    c.(outstanding := c.outstanding + 1)
  }

  /** The locked part of end_op, which decides whether this process commits. */
  function Ended(c: Counters): Counters {
    c.(outstanding := c.outstanding - 1, committing := c.committing || c.outstanding == 1)
  }

  predicate Commits(c: Counters) {
    c.outstanding == 1
  }

  /** The guard that makes log_write panic with "too big a transaction". */
  predicate TooBig(c: Counters, size: nat) {
    c.n >= LOGSIZE || c.n >= size - 1
  }

  /** The counters after k more appends. */
  function After(c: Counters, k: nat): Counters {
    c.(n := c.n + k)
  }

  /** begin_op against log_write: with no commit running it lets an operation in
      exactly if it and those already running could each append all the blocks they
      may, and the guard of log_write would let every one of the appends pass. */
  lemma AdmitsIff(c: Counters, size: nat)
    requires c.outstanding >= 0 && size > LOGSIZE
    ensures Admits(c) <==>
            !c.committing && forall k: nat :: k < (c.outstanding + 1) * MAXOPBLOCKS ==> !TooBig(After(c, k), size)
  {
    var last := (c.outstanding + 1) * MAXOPBLOCKS - 1;
    if !c.committing && !Admits(c) {
      assert TooBig(After(c, last), size);
    }
  }

  /** An operation turned away outside a commit: let it in all the same, and the
      first append the header cannot take comes at k, after k that it could. */
  lemma RefusedOverflows(c: Counters, size: nat) returns (k: nat)
    requires c.outstanding >= 0 && c.n <= LOGSIZE < size && !c.committing && !Admits(c)
    ensures k < (c.outstanding + 1) * MAXOPBLOCKS && TooBig(After(c, k), size)
    ensures forall j: nat :: j < k ==> !TooBig(After(c, j), size)
  {
    k := LOGSIZE - c.n;
  }

  /** Where a process is.  `Working(left)` is inside an operation that may still
      append `left` new blocks; `Committing` has left the locked part of end_op
      with do_commit set; `Asleep` is in the sleep of begin_op, `Woken` about to
      test again. */
  datatype Phase = Idle | Asleep | Woken | Working(left: nat) | Committing

  datatype State = State(c: Counters, procs: seq<Phase>)

  datatype Step =
    | Begin(p: nat)          // begin_op: enter, or go to sleep
    | LogNew(p: nat)         // log_write of a block not yet in the header
    | LogAgain(p: nat)       // log_write of a block already there
    | End(p: nat)            // the locked part of end_op
    | Finish(p: nat)         // after commit(): lh.n is 0; lock, committing = 0, wakeup

  function Roused(ph: Phase): Phase {
    if ph == Asleep then Woken else ph
  }

  /** wakeup(&log) */
  function WakeAll(procs: seq<Phase>): (r: seq<Phase>)
    ensures |r| == |procs| && forall p :: 0 <= p < |r| ==> r[p] == Roused(procs[p])
  {
    seq(|procs|, p requires 0 <= p < |procs| => Roused(procs[p]))
  }

  /** What each process may do: log_write only between begin_op and end_op and
      at most MAXOPBLOCKS new blocks an operation. */
  ghost predicate Enabled(s: State, a: Step) {
    && a.p < |s.procs|
    && match a
       case Begin(p) => s.procs[p] == Idle || s.procs[p] == Woken
       case LogNew(p) => s.procs[p].Working? && s.procs[p].left > 0
       case LogAgain(p) => s.procs[p].Working? && s.c.n > 0
       case End(p) => s.procs[p].Working?
       case Finish(p) => s.procs[p] == Committing
  }

  ghost function Next(s: State, a: Step): State
    requires Enabled(s, a)
  {
    match a
    case Begin(p) =>
      if Admits(s.c) then State(Begun(s.c), s.procs[p := Working(MAXOPBLOCKS)])
      else s.(procs := s.procs[p := Asleep])
    case LogNew(p) => State(s.c.(n := s.c.n + 1), s.procs[p := Working(s.procs[p].left - 1)])
    case LogAgain(p) => s
    case End(p) =>
      if Commits(s.c) then State(Ended(s.c), s.procs[p := Committing])
      else State(Ended(s.c), WakeAll(s.procs[p := Idle]))
    case Finish(p) => State(s.c.(n := 0, committing := false), WakeAll(s.procs[p := Idle]))
  }

  ghost predicate Initial(s: State) {
    s.c == Counters(0, 0, false) && forall p :: 0 <= p < |s.procs| ==> s.procs[p] == Idle
  }

  /** Every state some run of the given steps can reach. */
  ghost predicate Reaches(s: State, steps: seq<Step>, t: State)
    decreases |steps|
  {
    if steps == [] then s == t
    else Enabled(s, steps[0]) && Reaches(Next(s, steps[0]), steps[1..], t)
  }

  ghost predicate Reachable(t: State) {
    exists s, steps :: Initial(s) && Reaches(s, steps, t)
  }

  // ---- counting over the process table

  ghost function Unspent(procs: seq<Phase>): (r: nat) {
    if procs == [] then 0
    else Unspent(procs[..|procs| - 1]) + var ph := procs[|procs| - 1]; if ph.Working? then ph.left else 0
  }

  ghost function Count(procs: seq<Phase>, working: bool): (r: nat) {
    if procs == [] then 0
    else Count(procs[..|procs| - 1], working)
         + var ph := procs[|procs| - 1]; if (if working then ph.Working? else ph == Committing) then 1 else 0
  }

  lemma {:induction false} CountUpdate(procs: seq<Phase>, p: nat, ph: Phase)
    requires p < |procs|
    ensures Unspent(procs[p := ph]) == Unspent(procs) - Unspent([procs[p]]) + Unspent([ph])
    ensures Count(procs[p := ph], true) == Count(procs, true) - Count([procs[p]], true) + Count([ph], true)
    ensures Count(procs[p := ph], false) == Count(procs, false) - Count([procs[p]], false) + Count([ph], false)
  {
    var m := |procs| - 1;
    if p < m {
      CountUpdate(procs[..m], p, ph);
      assert procs[p := ph][..m] == procs[..m][p := ph];
    } else {
      assert procs[p := ph][..m] == procs[..m];
    }
  }

  lemma {:induction false} CountWake(procs: seq<Phase>)
    ensures Unspent(WakeAll(procs)) == Unspent(procs)
    ensures Count(WakeAll(procs), true) == Count(procs, true)
    ensures Count(WakeAll(procs), false) == Count(procs, false)
  {
    if procs != [] {
      var m := |procs| - 1;
      CountWake(procs[..m]);
      assert WakeAll(procs)[..m] == WakeAll(procs[..m]);
    }
  }

  lemma {:induction false} CountAt(procs: seq<Phase>, p: nat)
    requires p < |procs|
    ensures procs[p].Working? ==> Count(procs, true) > 0 && Unspent(procs) >= procs[p].left
    ensures procs[p] == Committing ==> Count(procs, false) > 0
  {
    if p < |procs| - 1 { CountAt(procs[..|procs| - 1], p); }
  }

  lemma {:induction false} UnspentBound(procs: seq<Phase>)
    requires forall p :: 0 <= p < |procs| && procs[p].Working? ==> procs[p].left <= MAXOPBLOCKS
    ensures Unspent(procs) <= Count(procs, true) * MAXOPBLOCKS
  {
    if procs != [] { UnspentBound(procs[..|procs| - 1]); }
  }

  lemma {:induction false} CountIdle(procs: seq<Phase>)
    requires forall p :: 0 <= p < |procs| ==> procs[p] == Idle
    ensures Unspent(procs) == Count(procs, true) == Count(procs, false) == 0
  {
    if procs != [] { CountIdle(procs[..|procs| - 1]); }
  }

  // ---- what every reachable state keeps

  /** outstanding counts the operations; one process commits exactly while
      committing is set, and then no operation runs; the entries and all unspent
      reservations fit in the log; an idle log is empty and nobody sleeps on it. */
  ghost predicate Inv(s: State) {
    && s.c.outstanding == Count(s.procs, true)
    && Count(s.procs, false) == (if s.c.committing then 1 else 0)
    && (s.c.committing ==> s.c.outstanding == 0)
    && s.c.n + Unspent(s.procs) <= LOGSIZE
    && (forall p :: 0 <= p < |s.procs| && s.procs[p].Working? ==> s.procs[p].left <= MAXOPBLOCKS)
    && (s.c.outstanding == 0 && !s.c.committing ==>
          s.c.n == 0 && forall p :: 0 <= p < |s.procs| ==> s.procs[p] != Asleep)
  }

  lemma InvInitial(s: State)
    requires Initial(s)
    ensures Inv(s)
  {
    CountIdle(s.procs);
  }

  lemma InvNext(s: State, a: Step)
    requires Inv(s) && Enabled(s, a)
    ensures Inv(Next(s, a))
  {
    hide Count, Unspent;
    var p := a.p;
    CountAt(s.procs, p);
    CountOne(s.procs[p]);
    UnspentBound(s.procs);
    match a
    case Begin(_) =>
      var ph := if Admits(s.c) then Working(MAXOPBLOCKS) else Asleep;
      CountUpdate(s.procs, p, ph);
      CountOne(ph);
    case LogNew(_) =>
      CountUpdate(s.procs, p, Working(s.procs[p].left - 1));
      CountOne(Working(s.procs[p].left - 1));
    case LogAgain(_) =>
    case End(_) =>
      var ph := if Commits(s.c) then Committing else Idle;
      CountUpdate(s.procs, p, ph);
      CountOne(ph);
      CountWake(s.procs[p := Idle]);
    case Finish(_) =>
      CountUpdate(s.procs, p, Idle);
      CountOne(Idle);
      CountWake(s.procs[p := Idle]);
  }

  lemma CountOne(ph: Phase)
    ensures Unspent([ph]) == if ph.Working? then ph.left else 0
    ensures Count([ph], true) == if ph.Working? then 1 else 0
    ensures Count([ph], false) == if ph == Committing then 1 else 0
  {
    assert [ph][..0] == [];
  }

  lemma {:induction false} InvRun(s: State, steps: seq<Step>, t: State)
    requires Inv(s) && Reaches(s, steps, t)
    ensures Inv(t)
    decreases |steps|
  {
    if steps != [] {
      InvNext(s, steps[0]);
      InvRun(Next(s, steps[0]), steps[1..], t);
    }
  }

  lemma InvReachable(t: State)
    requires Reachable(t)
    ensures Inv(t)
  {
    var s, steps :| Initial(s) && Reaches(s, steps, t);
    InvInitial(s);
    InvRun(s, steps, t);
  }

  // ---- what that means

  /** While one process commits no operation runs, none can start, and nobody
      else commits: commit() has the log to itself. */
  lemma CommitIsAlone(s: State, p: nat)
    requires Reachable(s) && p < |s.procs| && s.procs[p] == Committing
    ensures s.c.committing && s.c.outstanding == 0 && !Admits(s.c)
    ensures forall q :: 0 <= q < |s.procs| ==> !s.procs[q].Working? && (s.procs[q] == Committing ==> q == p)
  {
    InvReachable(s);
    CountAt(s.procs, p);
    forall q | 0 <= q < |s.procs|
      ensures !s.procs[q].Working? && (s.procs[q] == Committing ==> q == p)
    {
      CountAt(s.procs, q);
      if q != p {
        CountUpdate(s.procs, p, Idle);
        CountAt(s.procs[p := Idle], q);
      }
    }
  }

  /** end_op never finds log.committing set: its panic is unreachable. */
  lemma EndNeverPanics(s: State, p: nat)
    requires Reachable(s) && Enabled(s, End(p))
    ensures !s.c.committing && s.c.outstanding >= 1
  {
    InvReachable(s);
    CountAt(s.procs, p);
  }

  /** The reservation of begin_op covers every append: one more entry fits in the
      header, so the guard of log_write fires on an append exactly when the log
      area on the disk is full.  With an area of more than LOGSIZE blocks it
      never does. */
  lemma AppendGuard(s: State, p: nat, size: nat)
    requires Reachable(s) && Enabled(s, LogNew(p))
    ensures s.c.outstanding >= 1 && s.c.n < LOGSIZE
    ensures TooBig(s.c, size) <==> s.c.n + 1 >= size
    ensures size > LOGSIZE ==> !TooBig(s.c, size)
  {
    InvReachable(s);
    CountAt(s.procs, p);
  }

  /** Whoever sleeps in begin_op has someone to wake it: an operation that will
      end or a commit that will finish. */
  lemma SleeperHasWaker(s: State, p: nat)
    requires Reachable(s) && p < |s.procs| && s.procs[p] == Asleep
    ensures s.c.committing || exists q :: 0 <= q < |s.procs| && s.procs[q].Working?
  {
    InvReachable(s);
    if !s.c.committing && forall q :: 0 <= q < |s.procs| ==> !s.procs[q].Working? {
      NoneWorking(s.procs);
    }
  }

  lemma {:induction false} NoneWorking(procs: seq<Phase>)
    requires forall p :: 0 <= p < |procs| ==> !procs[p].Working?
    ensures Count(procs, true) == 0
  {
    if procs != [] { NoneWorking(procs[..|procs| - 1]); }
  }

  /** When a commit finishes, every sleeper tests again and the first one to do
      so is admitted. */
  lemma FinishAdmits(s: State, p: nat)
    requires Reachable(s) && Enabled(s, Finish(p))
    ensures var t := Next(s, Finish(p));
            Admits(t.c) && forall q :: 0 <= q < |t.procs| ==> t.procs[q] != Asleep
  {
    InvReachable(s);
    CountAt(s.procs, p);
  }

  // ---- log_write of a block already in the header

  /** The guard of log_write does not ask whether the block will be absorbed.
      Within the reservations it fires on such a write exactly when the header is full. */
  lemma AbsorbGuard(s: State, p: nat, size: nat)
    requires Reachable(s) && Enabled(s, LogAgain(p)) && size > LOGSIZE
    ensures TooBig(s.c, size) <==> s.c.n == LOGSIZE
  {
    InvReachable(s);
  }

  lemma StepReaches(s: State, a: Step, rest: seq<Step>, t: State)
    requires Enabled(s, a) && Reaches(Next(s, a), rest, t)
    ensures Reaches(s, [a] + rest, t)
  {
    assert ([a] + rest)[1..] == rest;
  }

  /** What k appends by process p lead to. */
  ghost function Appended(s: State, p: nat, k: nat): State
    requires p < |s.procs| && s.procs[p].Working? && k <= s.procs[p].left
  {
    State(s.c.(n := s.c.n + k), s.procs[p := Working(s.procs[p].left - k)])
  }

  lemma OneAppend(s: State, p: nat, k: nat)
    requires p < |s.procs| && s.procs[p].Working? && 0 < k <= s.procs[p].left
    ensures Enabled(s, LogNew(p)) && Next(s, LogNew(p)) == Appended(s, p, 1)
    ensures Appended(Appended(s, p, 1), p, k - 1) == Appended(s, p, k)
  {
  }

  lemma NoAppend(s: State, p: nat)
    requires p < |s.procs| && s.procs[p].Working?
    ensures Appended(s, p, 0) == s
  {
  }

  lemma {:induction false} AppendMany(s: State, p: nat, k: nat, t: State, steps: seq<Step>)
    requires p < |s.procs| && s.procs[p].Working? && k <= s.procs[p].left
    requires Reaches(Appended(s, p, k), steps, t)
    ensures Reaches(s, seq(k, _ => LogNew(p)) + steps, t)
    decreases k
  {
    hide Reaches, Enabled, Next;
    if k == 0 {
      NoAppend(s, p);
      assert seq(0, _ => LogNew(p)) + steps == steps;
    } else {
      OneAppend(s, p, k);
      AppendMany(Appended(s, p, 1), p, k - 1, t, steps);
      StepReaches(s, LogNew(p), seq(k - 1, _ => LogNew(p)) + steps, t);
      assert [LogNew(p)] + (seq(k - 1, _ => LogNew(p)) + steps) == seq(k, _ => LogNew(p)) + steps;
    }
  }

  /** k appends by process p. */
  ghost function Fill(p: nat, k: nat): (r: seq<Step>)
    ensures r == seq(k, _ => LogNew(p))
  {
    seq(k, _ => LogNew(p))
  }

  const FRESH := Working(MAXOPBLOCKS)
  const SPENT := Working(0)

  /** Three operations are running, nothing is logged. */
  const STARTED := State(Counters(0, 3, false), [FRESH, FRESH, FRESH])

  /** They have used their reservations up to the last `left` blocks of the third. */
  function Filled(left: nat): State
    requires left <= MAXOPBLOCKS
  {
    State(Counters(LOGSIZE - left, 3, false), [SPENT, SPENT, Working(left)])
  }

  lemma ThreeFill(left: nat)
    requires left <= MAXOPBLOCKS
    ensures Reaches(STARTED, Fill(0, MAXOPBLOCKS) + (Fill(1, MAXOPBLOCKS) + (Fill(2, MAXOPBLOCKS - left) + [])),
              Filled(left))
  {
    var t := Filled(left);
    var t2 := State(Counters(2 * MAXOPBLOCKS, 3, false), [SPENT, SPENT, FRESH]);
    var t1 := State(Counters(MAXOPBLOCKS, 3, false), [SPENT, FRESH, FRESH]);
    var last := Fill(2, MAXOPBLOCKS - left) + [];
    assert t2.procs[2 := Working(left)] == t.procs && t1.procs[1 := SPENT] == t2.procs
        && STARTED.procs[0 := SPENT] == t1.procs;
    AppendMany(t2, 2, MAXOPBLOCKS - left, t, []);
    AppendMany(t1, 1, MAXOPBLOCKS, t, last);
    AppendMany(STARTED, 0, MAXOPBLOCKS, t, Fill(1, MAXOPBLOCKS) + last);
  }

  lemma FilledReachable(left: nat)
    requires left <= MAXOPBLOCKS
    ensures Reachable(Filled(left))
  {
    var t, a := Filled(left), Fill(0, MAXOPBLOCKS) + (Fill(1, MAXOPBLOCKS) + (Fill(2, MAXOPBLOCKS - left) + []));
    var s2 := State(Counters(0, 2, false), [FRESH, FRESH, Idle]);
    var s1 := State(Counters(0, 1, false), [FRESH, Idle, Idle]);
    var s0 := State(Counters(0, 0, false), [Idle, Idle, Idle]);
    ThreeFill(left);
    assert Next(s2, Begin(2)) == STARTED;
    StepReaches(s2, Begin(2), a, t);
    assert Next(s1, Begin(1)) == s2;
    StepReaches(s1, Begin(1), [Begin(2)] + a, t);
    assert Next(s0, Begin(0)) == s1;
    StepReaches(s0, Begin(0), [Begin(1)] + ([Begin(2)] + a), t);
    assert Initial(s0);
  }

  /** A log area of `size` blocks lets some run panic on an append exactly if it
      has no more than LOGSIZE blocks, as the one mkfs makes has. */
  lemma AppendPanicsIff(size: nat)
    ensures (exists s, p :: Reachable(s) && Enabled(s, LogNew(p)) && TooBig(s.c, size)) <==> size <= LOGSIZE
  {
    if size <= LOGSIZE {
      FilledReachable(1);
      assert Enabled(Filled(1), LogNew(2)) && TooBig(Filled(1).c, size);
    } else {
      forall s, p | Reachable(s) && Enabled(s, LogNew(p)) ensures !TooBig(s.c, size) { AppendGuard(s, p, size); }
    }
  }

  /** On a block already in the header some run panics whatever the size: three
      operations that each use their whole reservation leave the header full. */
  lemma AbsorbedWriteCanPanic(size: nat)
    ensures exists s :: Reachable(s) && Enabled(s, LogAgain(0)) && TooBig(s.c, size)
  {
    FilledReachable(0);
    assert Enabled(Filled(0), LogAgain(0)) && TooBig(Filled(0).c, size);
  }
}
