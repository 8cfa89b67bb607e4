/** The priority scheduler: one scan of the process table, with whatever happens
    to the table while a process runs. */
module Sched {
  import opened Params

  const LOW_PRI := 1
  const HIGH_PRI := 2

  datatype Proc = Proc(state: RunState, pri: int, schedTime: nat, lopTicks: nat, hipTicks: nat)

  /** What happens while the process in one slot runs: the clock at both ends,
      the state and priority it comes back with, and the rest of the table then. */
  datatype Turn = Turn(start: nat, stop: nat, state: RunState, pri: int, table: seq<Proc>)

  predicate PriOk(pri: int) {
    pri == LOW_PRI || pri == HIGH_PRI
  }

  /** A process gives the processor back asleep, runnable or as a zombie, and no
      call sets any other priority. The table keeps its length. */
  predicate TurnOk(t: Turn, n: nat) {
    && |t.table| == n && PriOk(t.pri) && (t.state == SLEEPING || t.state == RUNNABLE || t.state == ZOMBIE)
    && t.start < UINT && t.stop < UINT
  }

  predicate EnvOk(env: seq<Turn>, n: nat) {
    |env| == n && forall k :: 0 <= k < n ==> TurnOk(env[k], n)
  }

  /** Slot i is chosen when the scan, at this search priority, gets there. */
  predicate Chosen(ps: seq<Proc>, i: nat, pri: int)
    requires i < |ps|
  {
    ps[i].state == RUNNABLE && ps[i].pri == pri
  }

  /** tdif in unsigned arithmetic. */
  function Interval(t: Turn): nat {
    (t.stop - t.start) % UINT
  }

  /** The interval goes to the counter of the priority the process came back with. */
  function Charged(p: Proc, t: Turn): Proc {
    if p.pri == LOW_PRI then p.(lopTicks := (p.lopTicks + Interval(t)) % UINT)
    else p.(hipTicks := (p.hipTicks + Interval(t)) % UINT)
  }

  /** The table when the process in slot i has had its turn. */
  function AfterTurn(ps: seq<Proc>, i: nat, t: Turn): (r: seq<Proc>)
    requires i < |ps| == |t.table|
    ensures |r| == |ps|
  {
    t.table[i := Charged(ps[i].(state := t.state, pri := t.pri, schedTime := t.start), t)]
  }

  function Raised(pri: int, t: Turn): int {
    if t.state != ZOMBIE && t.pri > pri then t.pri else pri
  }

  datatype Dispatch = Dispatch(slot: nat, pri: int, search: int)

  datatype Outcome = Outcome(log: seq<Dispatch>, procs: seq<Proc>, search: int)

  /** The second loop of the scheduler from slot i on. */
  function ScanFrom(ps: seq<Proc>, i: nat, search: int, env: seq<Turn>): (r: Outcome)
    requires i <= |ps| && EnvOk(env, |ps|)
    ensures |r.procs| == |ps|
    decreases |ps| - i
  {
    if i == |ps| then Outcome([], ps, search)
    else if !Chosen(ps, i, search) then ScanFrom(ps, i + 1, search, env)
    else
      var rest := ScanFrom(AfterTurn(ps, i, env[i]), i + 1, Raised(search, env[i]), env);
      rest.(log := [Dispatch(i, ps[i].pri, search)] + rest.log)
  }

  /** Some process of high priority can run. */
  predicate HighRunnable(ps: seq<Proc>) {
    exists i :: 0 <= i < |ps| && Chosen(ps, i, HIGH_PRI)
  }

  function Search(ps: seq<Proc>): int {
    if HighRunnable(ps) then HIGH_PRI else LOW_PRI
  }

  function Scan(ps: seq<Proc>, env: seq<Turn>): Outcome
    requires EnvOk(env, |ps|)
  {
    ScanFrom(ps, 0, Search(ps), env)
  }

  class Scheduler {
    var procs: seq<Proc>

    /** The first loop: is there anything of high priority? */
    method FindPriority() returns (searchPri: int)
      ensures searchPri == Search(procs)
    {
      searchPri := LOW_PRI;
      var p := 0;
      while p < |procs|
        invariant p <= |procs| && searchPri == LOW_PRI
        invariant forall k :: 0 <= k < p ==> !Chosen(procs, k, HIGH_PRI)
      {
        if procs[p].state != RUNNABLE || procs[p].pri < searchPri {
          p := p + 1;
          continue;
        }
        if procs[p].pri > searchPri && procs[p].pri == HIGH_PRI {
          searchPri := procs[p].pri;
          assert Chosen(procs, p, HIGH_PRI);
          return;
        }
        p := p + 1;
      }
    }

    /** One round of the scheduler's loop; `env` is what happens in each turn. */
    method Round(env: seq<Turn>) returns (ghost log: seq<Dispatch>)
      requires EnvOk(env, |procs|)
      modifies `procs
      ensures log == Scan(old(procs), env).log && procs == Scan(old(procs), env).procs
    {
      var searchPri := FindPriority();
      log := [];
      var p := 0;
      while p < |procs|
        invariant p <= |procs| == |old(procs)|
        invariant var rest, all := ScanFrom(procs, p, searchPri, env), Scan(old(procs), env);
                  all == rest.(log := log + rest.log)
      {
        if procs[p].state != RUNNABLE {
          p := p + 1;
          continue;
        }
        if procs[p].pri == searchPri {
          ghost var was := procs;
          procs := procs[p := procs[p].(state := RUNNING, schedTime := env[p].start)];
          Switch(p, env[p]);
          var tdif := Interval(env[p]);
          if procs[p].pri == LOW_PRI {
            procs := procs[p := procs[p].(lopTicks := (procs[p].lopTicks + tdif) % UINT)];
          } else if procs[p].pri == HIGH_PRI {
            procs := procs[p := procs[p].(hipTicks := (procs[p].hipTicks + tdif) % UINT)];
          } else {
            assert false;
          }
          assert procs == AfterTurn(was, p, env[p]);
          log := log + [Dispatch(p, was[p].pri, searchPri)];
          if procs[p].state != ZOMBIE && procs[p].pri > searchPri {
            searchPri := procs[p].pri;
          }
        }
        p := p + 1;
      }
    }

    /** swtch to the process and back. */
    method Switch(p: nat, t: Turn)
      requires p < |procs| && TurnOk(t, |procs|)
      modifies `procs
      ensures procs == t.table[p := old(procs)[p].(state := t.state, pri := t.pri)]
    {
      procs := t.table[p := procs[p].(state := t.state, pri := t.pri)];
    }

    /** setpri: the only call that changes a priority sets a legal one. */
    method Setpri(cur: nat, priority: int) returns (r: int)
      requires cur < |procs|
      modifies `procs
      ensures r == 1 <==> PriOk(priority)
      ensures r == -1 <==> !PriOk(priority)
      ensures procs == if r == 1 then old(procs)[cur := old(procs)[cur].(pri := priority)] else old(procs)
    {
      if priority < 1 || priority > 2 {
        return -1;
      }
      procs := procs[cur := procs[cur].(pri := priority)];
      return 1;
    }
  }

  // ---- what a scan does, whatever happens meanwhile

  /** Slots are dispatched in order, so each at most once; the search priority
      never falls; and a process is dispatched at the search priority. */
  lemma {:induction false} ScanOrder(ps: seq<Proc>, i: nat, search: int, env: seq<Turn>)
    requires i <= |ps| && EnvOk(env, |ps|)
    ensures var r := ScanFrom(ps, i, search, env);
            && (forall a :: 0 <= a < |r.log| ==>
                  i <= r.log[a].slot < |ps| && search <= r.log[a].search <= r.search && r.log[a].pri == r.log[a].search)
            && (forall a, b :: 0 <= a < b < |r.log| ==>
                  r.log[a].slot < r.log[b].slot && r.log[a].search <= r.log[b].search)
            && search <= r.search
    decreases |ps| - i
  {
    hide Chosen, AfterTurn, Interval;
    if i < |ps| {
      if Chosen(ps, i, search) {
        var s := Raised(search, env[i]);
        ScanOrder(AfterTurn(ps, i, env[i]), i + 1, s, env);
        ChosenPri(ps, i, search);
        var rest := ScanFrom(AfterTurn(ps, i, env[i]), i + 1, s, env);
        var log := ScanFrom(ps, i, search, env).log;
        assert forall b :: 0 < b < |log| ==> log[b] == rest.log[b - 1];
      } else {
        ScanOrder(ps, i + 1, search, env);
      }
    }
  }

  lemma ChosenPri(ps: seq<Proc>, i: nat, search: int)
    requires i < |ps| && Chosen(ps, i, search)
    ensures ps[i].pri == search
  {
  }

  /** With anything of high priority at the start, nothing else is dispatched. */
  lemma HighOnly(ps: seq<Proc>, env: seq<Turn>)
    requires EnvOk(env, |ps|) && HighRunnable(ps)
    ensures forall a :: 0 <= a < |Scan(ps, env).log| ==> Scan(ps, env).log[a].pri == HIGH_PRI
    ensures Scan(ps, env).search == HIGH_PRI
  {
    ScanOrder(ps, 0, HIGH_PRI, env);
    SearchRange(ps, 0, HIGH_PRI, env);
  }

  lemma {:induction false} SearchRange(ps: seq<Proc>, i: nat, search: int, env: seq<Turn>)
    requires i <= |ps| && EnvOk(env, |ps|) && PriOk(search)
    ensures PriOk(ScanFrom(ps, i, search, env).search)
    decreases |ps| - i
  {
    hide Chosen, AfterTurn;
    if i < |ps| {
      if Chosen(ps, i, search) {
        SearchRange(AfterTurn(ps, i, env[i]), i + 1, Raised(search, env[i]), env);
      } else {
        SearchRange(ps, i + 1, search, env);
      }
    }
  }

  /** The table and the search priority when the scan gets to slot j. */
  function Reached(ps: seq<Proc>, i: nat, search: int, env: seq<Turn>, j: nat): (r: (seq<Proc>, int))
    requires i <= j < |ps| && EnvOk(env, |ps|)
    ensures |r.0| == |ps|
    ensures PriOk(search) ==> PriOk(r.1) && search <= r.1
    decreases j - i
  {
    if i == j then (ps, search)
    else if !Chosen(ps, i, search) then Reached(ps, i + 1, search, env, j)
    else Reached(AfterTurn(ps, i, env[i]), i + 1, Raised(search, env[i]), env, j)
  }

  predicate InLog(log: seq<Dispatch>, j: nat) {
    exists a :: 0 <= a < |log| && log[a].slot == j
  }

  /** A slot is dispatched exactly if it can run, at the search priority, when the
      scan gets there: a process that becomes runnable at a higher priority waits
      for the next scan. */
  lemma {:induction false} DispatchedIff(ps: seq<Proc>, i: nat, search: int, env: seq<Turn>, j: nat)
    requires i <= j < |ps| && EnvOk(env, |ps|)
    ensures var at := Reached(ps, i, search, env, j);
            InLog(ScanFrom(ps, i, search, env).log, j) <==> Chosen(at.0, j, at.1)
    decreases j - i
  {
    hide Chosen, AfterTurn, Interval;
    ScanOrder(ps, i, search, env);
    var log := ScanFrom(ps, i, search, env).log;
    if Chosen(ps, i, search) {
      var rest := ScanFrom(AfterTurn(ps, i, env[i]), i + 1, Raised(search, env[i]), env);
      assert log == [Dispatch(i, ps[i].pri, search)] + rest.log;
      if i == j {
        assert log[0].slot == j;
      } else {
        DispatchedIff(AfterTurn(ps, i, env[i]), i + 1, Raised(search, env[i]), env, j);
        if InLog(rest.log, j) {
          var a :| 0 <= a < |rest.log| && rest.log[a].slot == j;
          assert log[a + 1].slot == j;
        }
        if InLog(log, j) {
          var a :| 0 <= a < |log| && log[a].slot == j;
          assert rest.log[a - 1].slot == j;
        }
      }
    } else if i < j {
      DispatchedIff(ps, i + 1, search, env, j);
    } else {
      ScanOrder(ps, i + 1, search, env);
    }
  }

  /** The process in slot k gave the processor back alive and at high priority. */
  predicate CameBackHigh(env: seq<Turn>, k: nat)
    requires k < |env|
  {
    env[k].state != ZOMBIE && env[k].pri == HIGH_PRI
  }

  /** Some slot before j was dispatched and came back at high priority. */
  ghost predicate RaisedBefore(log: seq<Dispatch>, env: seq<Turn>, j: nat) {
    exists a :: 0 <= a < |log| && log[a].slot < j && log[a].slot < |env| && CameBackHigh(env, log[a].slot)
  }

  lemma {:induction false} ReachedHigh(ps: seq<Proc>, i: nat, search: int, env: seq<Turn>, j: nat)
    requires i <= j < |ps| && EnvOk(env, |ps|) && PriOk(search)
    ensures Reached(ps, i, search, env, j).1 == HIGH_PRI <==>
            search == HIGH_PRI || RaisedBefore(ScanFrom(ps, i, search, env).log, env, j)
    decreases j - i
  {
    hide Chosen, AfterTurn, Interval, CameBackHigh;
    ScanOrder(ps, i, search, env);
    var log := ScanFrom(ps, i, search, env).log;
    if i == j {
    } else if Chosen(ps, i, search) {
      var s := Raised(search, env[i]);
      var rest := ScanFrom(AfterTurn(ps, i, env[i]), i + 1, s, env).log;
      ReachedHigh(AfterTurn(ps, i, env[i]), i + 1, s, env, j);
      RaisedFirst(search, env, i);
      assert log == [Dispatch(i, ps[i].pri, search)] + rest;
      if RaisedBefore(rest, env, j) {
        var a :| 0 <= a < |rest| && rest[a].slot < j && rest[a].slot < |env| && CameBackHigh(env, rest[a].slot);
        assert log[a + 1] == rest[a];
      }
      if CameBackHigh(env, i) { assert log[0].slot == i; }
      if RaisedBefore(log, env, j) {
        var a :| 0 <= a < |log| && log[a].slot < j && log[a].slot < |env| && CameBackHigh(env, log[a].slot);
        if a > 0 { assert rest[a - 1] == log[a]; }
      }
    } else {
      ReachedHigh(ps, i + 1, search, env, j);
    }
  }

  lemma RaisedFirst(search: int, env: seq<Turn>, i: nat)
    requires i < |env| && PriOk(search) && PriOk(env[i].pri)
    ensures Raised(search, env[i]) == HIGH_PRI <==> search == HIGH_PRI || CameBackHigh(env, i)
    ensures PriOk(Raised(search, env[i]))
  {
  }

  /** A process of high priority that can run when the scan gets to it is
      dispatched exactly if one could run when the scan began, or a process
      dispatched before it came back at high priority. */
  lemma HighDispatchedIff(ps: seq<Proc>, env: seq<Turn>, j: nat)
    requires EnvOk(env, |ps|) && j < |ps| && Chosen(Reached(ps, 0, Search(ps), env, j).0, j, HIGH_PRI)
    ensures InLog(Scan(ps, env).log, j) <==> HighRunnable(ps) || RaisedBefore(Scan(ps, env).log, env, j)
  {
    hide ScanFrom, Reached, HighRunnable, RaisedBefore;
    DispatchedIff(ps, 0, Search(ps), env, j);
    ReachedHigh(ps, 0, Search(ps), env, j);
  }

  /** A process of low priority that can run, and one of high priority asleep. */
  function Drowsy(awake: bool): seq<Proc> {
    [Proc(RUNNABLE, LOW_PRI, 0, 0, 0), Proc(if awake then RUNNABLE else SLEEPING, HIGH_PRI, 0, 0, 0)]
  }

  /** Whoever runs wakes the second one and goes to sleep. */
  function Wakes(): seq<Turn> {
    var t := Turn(0, 1, SLEEPING, LOW_PRI, Drowsy(true));
    [t, t]
  }

  /** A process of high priority is passed over: one of low priority wakes it in its
      turn, and the scan goes by. */
  lemma LateHighPassedOver()
    ensures EnvOk(Wakes(), 2) && Chosen(Reached(Drowsy(false), 0, Search(Drowsy(false)), Wakes(), 1).0, 1, HIGH_PRI)
    ensures !InLog(Scan(Drowsy(false), Wakes()).log, 1) && InLog(Scan(Drowsy(false), Wakes()).log, 0)
  {
    var ps, env := Drowsy(false), Wakes();
    assert !Chosen(ps, 1, HIGH_PRI) && !Chosen(ps, 0, HIGH_PRI) && Search(ps) == LOW_PRI;
    assert Reached(ps, 0, LOW_PRI, env, 1) == (AfterTurn(ps, 0, env[0]), LOW_PRI);
    DispatchedIff(ps, 0, LOW_PRI, env, 1);
    DispatchedIff(ps, 0, LOW_PRI, env, 0);
  }

  /** A slot that looks the same at the start and after every earlier turn looks
      so when the scan gets there. */
  lemma {:induction false} StaysUntilReached(ps: seq<Proc>, i: nat, search: int, env: seq<Turn>, j: nat)
    requires i <= j < |ps| && EnvOk(env, |ps|) && Chosen(ps, j, HIGH_PRI)
    requires forall k :: i <= k < j ==> Chosen(env[k].table, j, HIGH_PRI)
    ensures Chosen(Reached(ps, i, search, env, j).0, j, HIGH_PRI)
    decreases j - i
  {
    if i < j {
      if Chosen(ps, i, search) {
        StaysUntilReached(AfterTurn(ps, i, env[i]), i + 1, Raised(search, env[i]), env, j);
      } else {
        StaysUntilReached(ps, i + 1, search, env, j);
      }
    }
  }

  /** Every process of high priority that can run at the start, and still can when
      it is reached, is dispatched. */
  lemma HighServed(ps: seq<Proc>, env: seq<Turn>, j: nat)
    requires EnvOk(env, |ps|) && j < |ps| && Chosen(ps, j, HIGH_PRI)
    requires forall k :: 0 <= k < j ==> Chosen(env[k].table, j, HIGH_PRI)
    ensures InLog(Scan(ps, env).log, j)
  {
    hide Chosen, ScanFrom, Reached;
    assert HighRunnable(ps);
    StaysUntilReached(ps, 0, HIGH_PRI, env, j);
    DispatchedIff(ps, 0, HIGH_PRI, env, j);
  }

  /** Each interval a process runs is added to one of its counters, and to no
      other process's. */
  lemma OneCounter(ps: seq<Proc>, i: nat, t: Turn)
    requires i < |ps| && TurnOk(t, |ps|) && ps[i].lopTicks < UINT && ps[i].hipTicks < UINT
    ensures var r := AfterTurn(ps, i, t);
            && (forall k :: 0 <= k < |ps| && k != i ==> r[k] == t.table[k])
            && (r[i].lopTicks + r[i].hipTicks - ps[i].lopTicks - ps[i].hipTicks - Interval(t)) % UINT == 0
            && (if t.pri == HIGH_PRI then r[i].lopTicks == ps[i].lopTicks else r[i].hipTicks == ps[i].hipTicks)
  {
    var c := if t.pri == LOW_PRI then ps[i].lopTicks else ps[i].hipTicks;
    WrapAdd(c, Interval(t));
  }

  /** However the clock wraps, a process that ran for some ticks, fewer than the
      clock has, gets just those added: to the low counter if it came back at low
      priority and to the high one if at high. */
  lemma TicksCharged(ps: seq<Proc>, i: nat, t: Turn, ticks: nat)
    requires i < |ps| && TurnOk(t, |ps|) && ticks < UINT && t.stop == (t.start + ticks) % UINT
    ensures var r := AfterTurn(ps, i, t);
            && (forall k :: 0 <= k < |ps| && k != i ==> r[k] == t.table[k])
            && r[i].state == t.state && r[i].pri == t.pri && r[i].schedTime == t.start
            && (t.pri == LOW_PRI ==>
                  r[i].lopTicks == (ps[i].lopTicks + ticks) % UINT && r[i].hipTicks == ps[i].hipTicks)
            && (t.pri == HIGH_PRI ==>
                  r[i].hipTicks == (ps[i].hipTicks + ticks) % UINT && r[i].lopTicks == ps[i].lopTicks)
  {
    assert t.stop == t.start + ticks || t.stop == t.start + ticks - UINT;
    assert Interval(t) == ticks;
  }

  lemma WrapAdd(c: nat, d: nat)
    ensures ((c + d) % UINT - c - d) % UINT == 0
  {
    var q := (c + d) / UINT;
    assert (c + d) % UINT - c - d == -q * UINT;
    Multiple(-q);
  }

  lemma Multiple(q: int)
    ensures (q * UINT) % UINT == 0
  {
  }
}
