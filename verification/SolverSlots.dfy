/** The solver slots: a per-account counter under a lock, and a semaphore for the machine.

    Each step is one critical section or one semaphore operation of `solve_slot`; a run
    is any sequence of such steps by any threads. A step a thread cannot take changes
    nothing, so a theorem about every sequence is a theorem about every interleaving. */
module SolverSlots {
  import opened Sets

  datatype Limits = Limits(machine: nat, account: nat)

  /** The limits derived from the processor count, 4 when the system does not report one. */
  function LimitsFor(cpus: nat): (l: Limits)
    ensures 1 <= l.account <= l.machine <= 4
    ensures cpus > 0 ==> (l.machine > 1 ==> 2 * l.machine <= cpus) && (l.machine < 4 ==> cpus < 2 * l.machine + 2)
    ensures cpus == 0 ==> l.machine == 2
    ensures (l.account > 1 ==> 2 * l.account <= l.machine) && l.machine < 2 * l.account + 2
  {
    var half := (if cpus == 0 then 4 else cpus) / 2;
    var machine := if half < 1 then 1 else if half > 4 then 4 else half;
    Limits(machine, if machine / 2 < 1 then 1 else machine / 2)
  }

  type Tid = nat
  datatype User = User(name: string)

  /** Where a thread is inside `solve_slot`: counted but not yet holding a permit; refused
      a permit and about to uncount itself; solving; past the release and about to
      uncount itself. A thread outside `solve_slot` has no entry. */
  datatype Stage = Counted | Refused | Solving | Released
  datatype Thread = Thread(who: User, stage: Stage)

  datatype State = State(inflight: map<User, int>, free: int, threads: map<Tid, Thread>)

  datatype Step =
    | Enter(t: Tid, who: User)   // first critical section
    | Acquire(t: Tid)            // non-blocking acquire of the semaphore
    | Release(t: Tid)            // release at the end of the `with` body
    | Uncount(t: Tid)            // either of the two decrementing critical sections

  function Initial(l: Limits): State { State(map[], l.machine, map[]) }

  function Get(m: map<User, int>, who: User, default: int): int { if who in m then m[who] else default }

  predicate At(s: State, t: Tid, stage: Stage) { t in s.threads && s.threads[t].stage == stage }

  function MoveTo(s: State, t: Tid, stage: Stage): map<Tid, Thread>
    requires t in s.threads
  {
    s.threads[t := s.threads[t].(stage := stage)]
  }

  function Decremented(inflight: map<User, int>, who: User): map<User, int> {
    var left := Get(inflight, who, 1) - 1;
    if left <= 0 then inflight - {who} else inflight[who := left]
  }

  function Apply(l: Limits, s: State, step: Step): State {
    match step
    case Enter(t, who) =>
      if t in s.threads || Get(s.inflight, who, 0) >= l.account then s
      else s.(inflight := s.inflight[who := Get(s.inflight, who, 0) + 1],
              threads := s.threads[t := Thread(who, Counted)])
    case Acquire(t) =>
      if !At(s, t, Counted) then s
      else if s.free > 0 then s.(free := s.free - 1, threads := MoveTo(s, t, Solving))
      else s.(threads := MoveTo(s, t, Refused))
    case Release(t) =>
      if !At(s, t, Solving) then s else s.(free := s.free + 1, threads := MoveTo(s, t, Released))
    case Uncount(t) =>
      if !At(s, t, Refused) && !At(s, t, Released) then s
      else s.(inflight := Decremented(s.inflight, s.threads[t].who), threads := s.threads - {t})
  }

  function Run(l: Limits, s: State, steps: seq<Step>): State {
    if steps == [] then s else Apply(l, Run(l, s, steps[..|steps| - 1]), steps[|steps| - 1])
  }

  // ------------------------------------------------ the invariant

  function Mine(s: State, who: User): set<Tid> { set t | t in s.threads && s.threads[t].who == who }

  function Holders(s: State): set<Tid> { set t | t in s.threads && s.threads[t].stage == Solving }

  /** Permits are conserved; every account's stored count is the number of its threads
      between their increment and their decrement, within its limit; and no account is
      stored with a count of zero. */
  ghost predicate Invariant(l: Limits, s: State) {
    && s.free >= 0 && s.free + |Holders(s)| == l.machine
    && (forall who :: |Mine(s, who)| == Get(s.inflight, who, 0) <= l.account)
    && (forall who :: who in s.inflight ==> s.inflight[who] > 0)
  }

  lemma HoldersAfterMove(s: State, t: Tid, stage: Stage)
    requires t in s.threads
    ensures var s' := s.(threads := MoveTo(s, t, stage));
            && Holders(s') == (if stage == Solving then Holders(s) + {t} else Holders(s) - {t})
            && forall who :: Mine(s', who) == Mine(s, who)
  {}

  lemma MineAfterEntry(s: State, s': State, t: Tid, who: User, u: User)
    requires t !in s.threads && s'.threads == s.threads[t := Thread(who, Counted)]
    ensures |Mine(s', u)| == |Mine(s, u)| + if u == who then 1 else 0
  {
    if u == who {
      assert Mine(s', u) == Mine(s, u) + {t};
    } else {
      assert Mine(s', u) == Mine(s, u);
    }
  }

  lemma EnterKeeps(l: Limits, s: State, t: Tid, who: User)
    requires Invariant(l, s)
    ensures Invariant(l, Apply(l, s, Enter(t, who)))
  {
    if t !in s.threads && Get(s.inflight, who, 0) < l.account {
      var s' := Apply(l, s, Enter(t, who));
      assert Holders(s') == Holders(s);
      hide Mine;
      forall u ensures |Mine(s', u)| == Get(s'.inflight, u, 0) <= l.account {
        MineAfterEntry(s, s', t, who, u);
      }
    }
  }

  lemma UncountKeeps(l: Limits, s: State, t: Tid)
    requires Invariant(l, s)
    ensures Invariant(l, Apply(l, s, Uncount(t)))
  {
    if At(s, t, Refused) || At(s, t, Released) {
      var s' := Apply(l, s, Uncount(t));
      assert Holders(s') == Holders(s);
      var who := s.threads[t].who;
      assert t in Mine(s, who);
      forall u ensures |Mine(s', u)| == Get(s'.inflight, u, 0) <= l.account {
        if u == who {
          assert Mine(s', u) == Mine(s, u) - {t};
        } else {
          assert Mine(s', u) == Mine(s, u);
        }
      }
    }
  }

  lemma StepKeeps(l: Limits, s: State, step: Step)
    requires Invariant(l, s)
    ensures Invariant(l, Apply(l, s, step))
  {
    match step
    case Enter(t, who) => EnterKeeps(l, s, t, who);
    case Acquire(t) =>
      if At(s, t, Counted) { HoldersAfterMove(s, t, if s.free > 0 then Solving else Refused); }
    case Release(t) =>
      if At(s, t, Solving) { HoldersAfterMove(s, t, Released); }
    case Uncount(t) => UncountKeeps(l, s, t);
  }

  /** Every interleaving of any number of threads keeps the invariant. */
  lemma {:induction false} EveryRun(l: Limits, steps: seq<Step>)
    ensures Invariant(l, Run(l, Initial(l), steps))
  {
    if steps == [] {
      assert Holders(Initial(l)) == {};
      forall who ensures Mine(Initial(l), who) == {} {}
    } else {
      EveryRun(l, steps[..|steps| - 1]);
      StepKeeps(l, Run(l, Initial(l), steps[..|steps| - 1]), steps[|steps| - 1]);
    }
  }

  // ------------------------------------------------ consequences

  /** A decrement always finds its own account stored with a positive count, so the
      fallback value of the lookup is never used; and a release never exceeds the bound
      of the semaphore. */
  lemma DefaultsNeverUsed(l: Limits, steps: seq<Step>, t: Tid)
    requires t in Run(l, Initial(l), steps).threads
    ensures var s := Run(l, Initial(l), steps);
            && s.threads[t].who in s.inflight && s.inflight[s.threads[t].who] >= 1
            && (s.threads[t].stage == Solving ==> s.free < l.machine)
  {
    EveryRun(l, steps);
    var s := Run(l, Initial(l), steps);
    assert t in Mine(s, s.threads[t].who);
    assert |Mine(s, s.threads[t].who)| > 0;
    if s.threads[t].stage == Solving { assert t in Holders(s); }
  }

  /** When no thread is inside, the dictionary is empty and every permit is back. */
  lemma Quiescent(l: Limits, steps: seq<Step>)
    requires Run(l, Initial(l), steps).threads == map[]
    ensures Run(l, Initial(l), steps) == Initial(l)
  {
    EveryRun(l, steps);
    NobodyInside(l, Run(l, Initial(l), steps));
  }

  /** The fairness the account limit is for: with at least two slots on the machine, one
      account never occupies more than half of them. */
  lemma NoAccountHoldsMoreThanHalf(cpus: nat, steps: seq<Step>, who: User)
    requires LimitsFor(cpus).machine >= 2
    ensures var l := LimitsFor(cpus);
            var s := Run(l, Initial(l), steps);
            2 * |Mine(s, who) * Holders(s)| <= l.machine
  {
    var l := LimitsFor(cpus);
    EveryRun(l, steps);
    var s := Run(l, Initial(l), steps);
    SubsetSize(Mine(s, who) * Holders(s), Mine(s, who));
    assert |Mine(s, who)| <= l.account;
  }

  /** A thread is refused a permit only when every permit is held by another thread. */
  lemma RefusedOnlyWhenFull(l: Limits, steps: seq<Step>, t: Tid)
    requires At(Run(l, Initial(l), steps), t, Counted)
    ensures var s := Run(l, Initial(l), steps);
            At(Apply(l, s, Acquire(t)), t, Refused) <==> |Holders(s) - {t}| == l.machine
  {
    EveryRun(l, steps);
    var s := Run(l, Initial(l), steps);
    assert Holders(s) - {t} == Holders(s);
  }

  // ------------------------------------------------ what a pass through the slot does

  /** Apart from thread t of this account nothing is touched: no other thread, and no other
      account's count. */
  predicate OnlyTouches(s: State, s': State, t: Tid, who: User) {
    && s'.threads - {t} == s.threads - {t}
    && s'.inflight - {who} == s.inflight - {who}
  }

  /** A thread outside is counted in exactly when its account is below its limit. */
  lemma EnterMeans(l: Limits, s: State, t: Tid, who: User)
    requires Invariant(l, s) && t !in s.threads
    ensures var s' := Apply(l, s, Enter(t, who));
            && (|Mine(s, who)| >= l.account ==> s' == s)
            && (|Mine(s, who)| < l.account ==>
                  && At(s', t, Counted) && s'.threads[t].who == who && s'.free == s.free
                  && |Mine(s', who)| == |Mine(s, who)| + 1 && OnlyTouches(s, s', t, who))
  {
    if |Mine(s, who)| < l.account {
      var s' := Apply(l, s, Enter(t, who));
      MineAfterEntry(s, s', t, who, who);
    }
  }

  /** It then gets a permit exactly when fewer than all are held. */
  lemma AcquireMeans(l: Limits, s: State, t: Tid)
    requires Invariant(l, s) && At(s, t, Counted)
    ensures var s' := Apply(l, s, Acquire(t));
            var who := s.threads[t].who;
            && t in s'.threads && s'.threads[t].who == who && Mine(s', who) == Mine(s, who)
            && OnlyTouches(s, s', t, who) && s'.inflight == s.inflight
            && (|Holders(s)| < l.machine ==> At(s', t, Solving) && s'.free == s.free - 1)
            && (|Holders(s)| >= l.machine ==> At(s', t, Refused) && s'.free == s.free)
  {
    HoldersAfterMove(s, t, if s.free > 0 then Solving else Refused);
  }

  /** And gives it back. */
  lemma ReleaseMeans(l: Limits, s: State, t: Tid)
    requires Invariant(l, s) && At(s, t, Solving)
    ensures var s' := Apply(l, s, Release(t));
            var who := s.threads[t].who;
            && At(s', t, Released) && s'.threads[t].who == who && Mine(s', who) == Mine(s, who)
            && OnlyTouches(s, s', t, who) && s'.inflight == s.inflight && s'.free == s.free + 1
  {
    HoldersAfterMove(s, t, Released);
  }

  /** Counting out takes the thread out, and one off its account. */
  lemma UncountMeans(l: Limits, s: State, t: Tid)
    requires Invariant(l, s) && (At(s, t, Refused) || At(s, t, Released))
    ensures var s' := Apply(l, s, Uncount(t));
            var who := s.threads[t].who;
            && t !in s'.threads && |Mine(s', who)| == |Mine(s, who)| - 1 && s'.free == s.free
            && OnlyTouches(s, s', t, who)
            && Get(s'.inflight, who, 0) == Get(s.inflight, who, 0) - 1
  {
    var s' := Apply(l, s, Uncount(t));
    var who := s.threads[t].who;
    assert t in Mine(s, who);
    assert Mine(s', who) == Mine(s, who) - {t};
  }

  lemma RunFour(l: Limits, s: State, a: Step, b: Step, c: Step, d: Step)
    ensures Run(l, s, [a, b, c]) == Apply(l, Apply(l, Apply(l, s, a), b), c)
    ensures Run(l, s, [a, b, c, d]) == Apply(l, Run(l, s, [a, b, c]), d)
  {
    hide Apply;
    assert [a, b, c, d][..3] == [a, b, c] && [a, b, c][..2] == [a, b] && [a, b][..1] == [a] && [a][..0] == [];
    assert Run(l, s, []) == s;
    assert Run(l, s, [a]) == Apply(l, s, a);
    assert Run(l, s, [a, b]) == Apply(l, Apply(l, s, a), b);
  }

  lemma InAndOut(inflight: map<User, int>, who: User)
    requires who in inflight ==> inflight[who] > 0
    ensures Decremented(inflight[who := Get(inflight, who, 0) + 1], who) == inflight
  {}

  lemma ThreadInAndOut(threads: map<Tid, Thread>, t: Tid, x: Thread, y: Thread, z: Thread)
    requires t !in threads
    ensures threads[t := x][t := y][t := z] - {t} == threads == threads[t := x][t := y] - {t}
  {}

  /** A solve with a free permit, from its admission to its end, leaves everything as it was. */
  lemma SolveRestores(l: Limits, s: State, t: Tid, who: User)
    requires Invariant(l, s) && t !in s.threads && |Mine(s, who)| < l.account && |Holders(s)| < l.machine
    ensures At(Run(l, s, [Enter(t, who), Acquire(t), Release(t)]), t, Released)
    ensures Run(l, s, [Enter(t, who), Acquire(t), Release(t), Uncount(t)]) == s
  {
    RunFour(l, s, Enter(t, who), Acquire(t), Release(t), Uncount(t));
    InAndOut(s.inflight, who);
    ThreadInAndOut(s.threads, t, Thread(who, Counted), Thread(who, Solving), Thread(who, Released));
    assert s.free > 0 && Get(s.inflight, who, 0) < l.account;
    hide Run, Mine, Holders, Invariant, Decremented;
    var n := Get(s.inflight, who, 0) + 1;
    var entered := Apply(l, s, Enter(t, who));
    assert entered == State(s.inflight[who := n], s.free, s.threads[t := Thread(who, Counted)]);
    var solving := Apply(l, entered, Acquire(t));
    assert solving == State(entered.inflight, s.free - 1, entered.threads[t := Thread(who, Solving)]);
    var released := Apply(l, solving, Release(t));
    assert released == State(entered.inflight, s.free, solving.threads[t := Thread(who, Released)]);
  }

  /** So does a refused one. */
  lemma RefusalRestores(l: Limits, s: State, t: Tid, who: User)
    requires Invariant(l, s) && t !in s.threads && |Mine(s, who)| < l.account && |Holders(s)| == l.machine
    ensures Run(l, s, [Enter(t, who), Acquire(t), Uncount(t)]) == s
  {
    RunFour(l, s, Enter(t, who), Acquire(t), Uncount(t), Uncount(t));
    InAndOut(s.inflight, who);
    ThreadInAndOut(s.threads, t, Thread(who, Counted), Thread(who, Refused), Thread(who, Refused));
    assert s.free == 0 && Get(s.inflight, who, 0) < l.account;
    hide Run, Mine, Holders, Invariant, Decremented;
    var n := Get(s.inflight, who, 0) + 1;
    var entered := Apply(l, s, Enter(t, who));
    assert entered == State(s.inflight[who := n], s.free, s.threads[t := Thread(who, Counted)]);
    var refused := Apply(l, entered, Acquire(t));
    assert refused == State(entered.inflight, s.free, entered.threads[t := Thread(who, Refused)]);
  }

  /** What a thread inside still has to do. */
  function Remaining(s: State, t: Tid): seq<Step>
    requires t in s.threads
  {
    match s.threads[t].stage
    case Counted => [Acquire(t)] + if s.free > 0 then [Release(t), Uncount(t)] else [Uncount(t)]
    case Solving => [Release(t), Uncount(t)]
    case Refused => [Uncount(t)]
    case Released => [Uncount(t)]
  }

  lemma RunApart(l: Limits, s: State, a: seq<Step>, b: seq<Step>)
    ensures Run(l, s, a + b) == Run(l, Run(l, s, a), b)
  {
    hide Apply;
    if b == [] {
      assert a + b == a;
    } else {
      var n := |b| - 1;
      assert (a + b)[..|a| + n] == a + b[..n];
      RunApart(l, s, a, b[..n]);
    }
  }

  lemma {:induction false} RunKeeps(l: Limits, s: State, steps: seq<Step>)
    requires Invariant(l, s)
    ensures Invariant(l, Run(l, s, steps))
  {
    if steps != [] {
      RunKeeps(l, s, steps[..|steps| - 1]);
      StepKeeps(l, Run(l, s, steps[..|steps| - 1]), steps[|steps| - 1]);
    }
  }

  lemma RunCons(l: Limits, s: State, step: Step, rest: seq<Step>)
    ensures Run(l, s, [step] + rest) == Run(l, Apply(l, s, step), rest)
  {
    RunApart(l, s, [step], rest);
    assert [step][..0] == [];
  }

  lemma OutAlone(l: Limits, s: State, t: Tid)
    requires At(s, t, Refused) || At(s, t, Released)
    ensures Run(l, s, [Uncount(t)]).threads == s.threads - {t}
  {
    RunCons(l, s, Uncount(t), []);
    assert [Uncount(t)] + [] == [Uncount(t)];
  }

  lemma SolvedAlone(l: Limits, s: State, t: Tid)
    requires At(s, t, Solving)
    ensures Run(l, s, [Release(t), Uncount(t)]).threads == s.threads - {t}
  {
    hide Run;
    RunCons(l, s, Release(t), [Uncount(t)]);
    assert [Release(t)] + [Uncount(t)] == [Release(t), Uncount(t)];
    OutAlone(l, Apply(l, s, Release(t)), t);
  }

  /** Those steps take it out, and no other thread with it. */
  lemma LeavesAlone(l: Limits, s: State, t: Tid)
    requires t in s.threads
    ensures Run(l, s, Remaining(s, t)).threads == s.threads - {t}
  {
    hide Run;
    match s.threads[t].stage
    case Counted =>
      var rest := if s.free > 0 then [Release(t), Uncount(t)] else [Uncount(t)];
      RunCons(l, s, Acquire(t), rest);
      if s.free > 0 { SolvedAlone(l, Apply(l, s, Acquire(t)), t); } else { OutAlone(l, Apply(l, s, Acquire(t)), t); }
    case Solving => SolvedAlone(l, s, t);
    case Refused => OutAlone(l, s, t);
    case Released => OutAlone(l, s, t);
  }

  lemma NobodyInside(l: Limits, s: State)
    requires Invariant(l, s) && s.threads == map[]
    ensures s == Initial(l)
  {
    assert Holders(s) == {};
    forall who ensures who !in s.inflight { assert Mine(s, who) == {}; }
    assert s.inflight == map[];
  }

  /** From every reachable state the remaining steps of the threads inside lead back to the
      start: every permit returned and nobody counted. */
  lemma {:induction false} EverybodyCanLeave(l: Limits, s: State) returns (steps: seq<Step>)
    requires Invariant(l, s)
    ensures Run(l, s, steps) == Initial(l) && forall i :: 0 <= i < |steps| ==> !steps[i].Enter?
    decreases |s.threads|
  {
    if s.threads == map[] {
      NobodyInside(l, s);
      return [];
    }
    var t :| t in s.threads;
    LeavesAlone(l, s, t);
    RunKeeps(l, s, Remaining(s, t));
    var rest := EverybodyCanLeave(l, Run(l, s, Remaining(s, t)));
    RunApart(l, s, Remaining(s, t), rest);
    steps := Remaining(s, t) + rest;
  }

  // ------------------------------------------------ the object the steps act on

  /** The module-level dictionary and semaphore, with one method per step. The threads are
      kept beside them for the proof only. */
  class Slots {
    const limits: Limits
    var inflight: map<User, int>
    var free: int
    ghost var threads: map<Tid, Thread>

    ghost function Now(): State
      reads this
    {
      State(inflight, free, threads)
    }

    constructor (cpus: nat)
      ensures limits == LimitsFor(cpus) && Now() == Initial(limits) && Invariant(limits, Now())
    {
      limits := LimitsFor(cpus);
      inflight, free, threads := map[], LimitsFor(cpus).machine, map[];
      new;
      EveryRun(limits, []);
    }

    /** Counts the caller in, or refuses it and reports how many solves it already has. */
    method Reserve(ghost t: Tid, who: User) returns (admitted: bool, mine: int)
      requires Invariant(limits, Now()) && t !in threads
      modifies this
      ensures Invariant(limits, Now()) && Now() == Apply(limits, old(Now()), Enter(t, who))
      ensures mine == |Mine(old(Now()), who)|
      ensures admitted <==> mine < limits.account
      ensures admitted ==> threads == old(threads)[t := Thread(who, Counted)] && inflight[who] == mine + 1
      ensures !admitted ==> Now() == old(Now())
    {
      EnterKeeps(limits, Now(), t, who);
      mine := if who in inflight then inflight[who] else 0;
      admitted := mine < limits.account;
      if admitted {
        inflight := inflight[who := mine + 1];
        threads := threads[t := Thread(who, Counted)];
      }
    }

    /** The non-blocking acquire. */
    method TryAcquire(ghost t: Tid) returns (acquired: bool)
      requires Invariant(limits, Now()) && At(Now(), t, Counted)
      modifies this
      ensures Invariant(limits, Now()) && Now() == Apply(limits, old(Now()), Acquire(t))
      ensures acquired <==> |Holders(old(Now()))| < limits.machine
      ensures At(Now(), t, if acquired then Solving else Refused) && free == old(free) - if acquired then 1 else 0
      ensures threads - {t} == old(threads) - {t} && inflight == old(inflight)
    {
      StepKeeps(limits, Now(), Acquire(t));
      acquired := free > 0;
      threads := MoveTo(Now(), t, if free > 0 then Solving else Refused);
      if acquired { free := free - 1; }
    }

    method GiveBack(ghost t: Tid)
      requires Invariant(limits, Now()) && At(Now(), t, Solving)
      modifies this
      ensures Invariant(limits, Now()) && Now() == Apply(limits, old(Now()), Release(t))
      ensures old(free) + 1 == free <= limits.machine
      ensures At(Now(), t, Released) && threads - {t} == old(threads) - {t} && inflight == old(inflight)
    {
      StepKeeps(limits, Now(), Release(t));
      free := free + 1;
      threads := MoveTo(Now(), t, Released);
    }

    method CountOut(ghost t: Tid, who: User)
      requires Invariant(limits, Now()) && (At(Now(), t, Refused) || At(Now(), t, Released))
      requires threads[t].who == who
      modifies this
      ensures Invariant(limits, Now()) && Now() == Apply(limits, old(Now()), Uncount(t))
      ensures threads == old(threads) - {t} && free == old(free)
      ensures Get(inflight, who, 0) == Get(old(inflight), who, 0) - 1
      ensures inflight - {who} == old(inflight) - {who}
    {
      UncountKeeps(limits, Now(), t);
      UncountMeans(limits, Now(), t);
      var left := (if who in inflight then inflight[who] else 1) - 1;
      if left <= 0 {
        inflight := inflight - {who};
      } else {
        inflight := inflight[who := left];
      }
      threads := threads - {t};
    }
  }
}
