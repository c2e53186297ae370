/** The exclusive slot for long-running maintenance jobs.

    Steps are the critical section of `start`, the start of the worker thread, and the
    worker's terminal write. A step that cannot be taken changes nothing. */
module JobSlot {
  import opened Wrappers

  datatype Kind = ForecastRefit | Evidence

  /** Order in which the state dictionary is walked. */
  const KINDS: seq<Kind> := [ForecastRefit, Evidence]

  datatype Status = Idle | Running | Finished | Failed

  /** The text the program stores under "error". */
  datatype Error = NoError | ExitCode(code: int) | GaveUp(minutes: nat) | Exception(message: string)

  datatype Entry = Entry(status: Status, startedAt: Option<nat>, finishedAt: Option<nat>,
                         startedBy: Option<string>, summary: string, error: Error)

  const TIMEOUT_MINUTES := 45

  /** How the worker's subprocess call ended. */
  datatype Outcome = Exit(code: int, tail: string) | TimedOut | Raised(message: string)

  datatype Stage = Accepted | Working | Ended

  /** One accepted start, with the number of terminal writes it has made. */
  datatype Job = Job(kind: Kind, stage: Stage, writes: nat)

  datatype State = State(entries: map<Kind, Entry>, jobs: seq<Job>)

  datatype Step = Start(kind: Kind, user: string, now: nat) | Spawn(j: nat) | Finish(j: nat, outcome: Outcome, now: nat)

  const IDLE := Entry(Idle, None, None, None, "", NoError)

  const INITIAL := State(map[ForecastRefit := IDLE, Evidence := IDLE], [])

  predicate IsRunning(entries: map<Kind, Entry>, kind: Kind) { kind in entries && entries[kind].status == Running }

  /** The first running kind in the order of the dictionary. */
  function RunningKind(entries: map<Kind, Entry>): Option<Kind> {
    if IsRunning(entries, ForecastRefit) then Some(ForecastRefit)
    else if IsRunning(entries, Evidence) then Some(Evidence)
    else None
  }

  function Started(user: string, now: nat): Entry { Entry(Running, Some(now), None, Some(user), "", NoError) }

  function Written(entry: Entry, outcome: Outcome, now: nat): Entry {
    match outcome
    case Exit(code, tail) =>
      entry.(status := if code == 0 then Finished else Failed, finishedAt := Some(now), summary := tail,
             error := if code == 0 then NoError else ExitCode(code))
    case TimedOut => entry.(status := Failed, finishedAt := Some(now), error := GaveUp(TIMEOUT_MINUTES))
    case Raised(message) => entry.(status := Failed, finishedAt := Some(now), error := Exception(message))
  }

  predicate Enabled(s: State, step: Step) {
    match step
    case Start(kind, _, _) => RunningKind(s.entries).None?
    case Spawn(j) => j < |s.jobs| && s.jobs[j].stage == Accepted
    case Finish(j, _, _) => j < |s.jobs| && s.jobs[j].stage == Working && s.jobs[j].kind in s.entries
  }

  function Apply(s: State, step: Step): State {
    if !Enabled(s, step) then s else
    match step
    case Start(kind, user, now) =>
      State(s.entries[kind := Started(user, now)], s.jobs + [Job(kind, Accepted, 0)])
    case Spawn(j) => s.(jobs := s.jobs[j := s.jobs[j].(stage := Working)])
    case Finish(j, outcome, now) =>
      var job := s.jobs[j];
      State(s.entries[job.kind := Written(s.entries[job.kind], outcome, now)],
            s.jobs[j := Job(job.kind, Ended, job.writes + 1)])
  }

  function Run(s: State, steps: seq<Step>): State {
    if steps == [] then s else Apply(Run(s, steps[..|steps| - 1]), steps[|steps| - 1])
  }

  // ------------------------------------------------ the invariant

  /** The one job that has not made its terminal write, if any: only the newest can be. */
  function Unfinished(s: State): Option<Kind> {
    if s.jobs != [] && s.jobs[|s.jobs| - 1].stage != Ended then Some(s.jobs[|s.jobs| - 1].kind) else None
  }

  predicate Asked(jobs: seq<Job>, kind: Kind) { exists j :: 0 <= j < |jobs| && jobs[j].kind == kind }

  /** What the entry of one kind says about the jobs. */
  predicate EntryAgrees(s: State, kind: Kind) {
    && kind in s.entries
    && (s.entries[kind].status == Running <==> Unfinished(s) == Some(kind))
    && (s.entries[kind].status == Idle <==> !Asked(s.jobs, kind))
    && (s.entries[kind].status == Failed <==> s.entries[kind].error != NoError)
  }

  ghost predicate Invariant(s: State) {
    && EntryAgrees(s, ForecastRefit) && EntryAgrees(s, Evidence)
    && (forall j :: 0 <= j < |s.jobs| - 1 ==> s.jobs[j].stage == Ended)
    && (forall j :: 0 <= j < |s.jobs| ==> s.jobs[j].writes == if s.jobs[j].stage == Ended then 1 else 0)
  }

  lemma StepKeepsEntry(s: State, step: Step, kind: Kind)
    requires Invariant(s)
    ensures EntryAgrees(Apply(s, step), kind)
  {
    assert kind == ForecastRefit || kind == Evidence;
    assert EntryAgrees(s, kind);
    var s' := Apply(s, step);
    if Enabled(s, step) {
      if step.Start? {
        assert s'.jobs[|s.jobs|].kind == step.kind;
        AskedAppend(s.jobs, Job(step.kind, Accepted, 0), kind);
      } else {
        assert step.j == |s.jobs| - 1;
        AskedUpdate(s.jobs, step.j, s'.jobs[step.j], kind);
      }
    }
  }

  lemma AskedAppend(jobs: seq<Job>, job: Job, kind: Kind)
    ensures Asked(jobs + [job], kind) <==> Asked(jobs, kind) || job.kind == kind
  {
    if Asked(jobs, kind) {
      var j :| 0 <= j < |jobs| && jobs[j].kind == kind;
      assert (jobs + [job])[j].kind == kind;
    }
    if job.kind == kind { assert (jobs + [job])[|jobs|].kind == kind; }
  }

  lemma AskedUpdate(jobs: seq<Job>, j: nat, job: Job, kind: Kind)
    requires j < |jobs| && job.kind == jobs[j].kind
    ensures Asked(jobs[j := job], kind) <==> Asked(jobs, kind)
  {
    assert forall i :: 0 <= i < |jobs| ==> jobs[j := job][i].kind == jobs[i].kind;
  }

  lemma StepKeeps(s: State, step: Step)
    requires Invariant(s)
    ensures Invariant(Apply(s, step))
  {
    StepKeepsEntry(s, step, ForecastRefit);
    StepKeepsEntry(s, step, Evidence);
  }

  lemma {:induction false} EveryRun(steps: seq<Step>)
    ensures Invariant(Run(INITIAL, steps))
  {
    if steps != [] {
      hide Apply;
      EveryRun(steps[..|steps| - 1]);
      StepKeeps(Run(INITIAL, steps[..|steps| - 1]), steps[|steps| - 1]);
    }
  }

  // ------------------------------------------------ consequences over every interleaving

  /** At most one kind is running, and it is the kind of the one unfinished job. */
  lemma {:induction false} OneAtATime(steps: seq<Step>, a: Kind, b: Kind)
    requires IsRunning(Run(INITIAL, steps).entries, a) && IsRunning(Run(INITIAL, steps).entries, b)
    ensures a == b && Unfinished(Run(INITIAL, steps)) == Some(a) == RunningKind(Run(INITIAL, steps).entries)
  {
    EveryRun(steps);
  }

  /** A start is refused if and only if some accepted job has not made its terminal write.
      A refusal changes nothing, and the kind it reports is that job's. */
  lemma RefusalNamesTheJobInTheWay(steps: seq<Step>, kind: Kind, user: string, now: nat)
    ensures var s := Run(INITIAL, steps);
            && (!Enabled(s, Start(kind, user, now)) <==> exists j :: 0 <= j < |s.jobs| && s.jobs[j].stage != Ended)
            && (!Enabled(s, Start(kind, user, now)) ==>
                  Apply(s, Start(kind, user, now)) == s && RunningKind(s.entries) == Unfinished(s) != None)
  {
    EveryRun(steps);
    var s := Run(INITIAL, steps);
    if Unfinished(s).Some? {
      assert s.jobs[|s.jobs| - 1].stage != Ended;
      assert IsRunning(s.entries, Unfinished(s).value);
    }
  }

  /** Every accepted start makes exactly one terminal write, unless it is still unfinished. */
  lemma {:induction false} ExactlyOneTerminalWrite(steps: seq<Step>, j: nat)
    requires j < |Run(INITIAL, steps).jobs|
    ensures var job := Run(INITIAL, steps).jobs[j];
            job.writes <= 1 && (job.writes == 1 <==> job.stage == Ended)
  {
    EveryRun(steps);
  }

  predicate NeverFinishes(steps: seq<Step>, j: nat) {
    forall i :: 0 <= i < |steps| ==> !(steps[i].Finish? && steps[i].j == j)
  }

  /** Only the terminal write frees the slot: after an accepted start, as long as that
      job's write has not happened - its thread never started, or it is still working -
      every further start is refused and the entries do not change. */
  lemma HeldUntilWritten(before: seq<Step>, kind: Kind, user: string, now: nat, after: seq<Step>)
    requires Enabled(Run(INITIAL, before), Start(kind, user, now))
    requires NeverFinishes(after, |Run(INITIAL, before).jobs|)
    ensures var s := Apply(Run(INITIAL, before), Start(kind, user, now));
            var s' := Run(s, after);
            && Invariant(s') && s'.entries == s.entries && |s'.jobs| == |s.jobs|
            && Unfinished(s') == Some(kind)
            && forall k, u, n :: !Enabled(s', Start(k, u, n))
  {
    EveryRun(before);
    StepKeeps(Run(INITIAL, before), Start(kind, user, now));
    var s := Apply(Run(INITIAL, before), Start(kind, user, now));
    HeldFrom(s, kind, after);
    assert EntryAgrees(Run(s, after), kind);
  }

  lemma {:induction false} HeldFrom(s: State, kind: Kind, after: seq<Step>)
    requires Invariant(s) && Unfinished(s) == Some(kind) && NeverFinishes(after, |s.jobs| - 1)
    ensures var s' := Run(s, after);
            Invariant(s') && s'.entries == s.entries && |s'.jobs| == |s.jobs| && Unfinished(s') == Some(kind)
  {
    if after != [] {
      var m := |after| - 1;
      HeldFrom(s, kind, after[..m]);
      var prior := Run(s, after[..m]);
      assert EntryAgrees(prior, kind);
      StepKeeps(prior, after[m]);
    }
  }

  /** Every entry but this kind's is as it was. */
  predicate OthersKept(s: State, s': State, kind: Kind) { s'.entries - {kind} == s.entries - {kind} }

  /** What an accepted start writes: who and when, and nothing of the job before. */
  lemma StartWrites(s: State, kind: Kind, user: string, now: nat)
    requires Enabled(s, Start(kind, user, now))
    ensures var s' := Apply(s, Start(kind, user, now));
            && OthersKept(s, s', kind) && kind in s'.entries
            && s'.entries[kind] == Entry(Running, Some(now), None, Some(user), "", NoError)
  {}

  /** What the terminal write leaves of the start, and what it adds for each way the command can
      end: what it printed last and its code, that it was given up after 45 minutes, or the
      exception. */
  lemma FinishWrites(s: State, j: nat, outcome: Outcome, now: nat)
    requires Enabled(s, Finish(j, outcome, now))
    ensures var (s', kind) := (Apply(s, Finish(j, outcome, now)), s.jobs[j].kind);
            var (old_, new_) := (s.entries[kind], s'.entries[kind]);
            && OthersKept(s, s', kind)
            && new_.startedAt == old_.startedAt && new_.startedBy == old_.startedBy && new_.finishedAt == Some(now)
            && (outcome.Exit? ==> new_.summary == outcome.tail) && (!outcome.Exit? ==> new_.summary == old_.summary)
            && (outcome == Exit(0, new_.summary) ==> new_.status == Finished && new_.error == NoError)
            && (outcome.Exit? && outcome.code != 0 ==> new_.status == Failed && new_.error == ExitCode(outcome.code))
            && (outcome.TimedOut? ==> new_.status == Failed && new_.error == GaveUp(45))
            && (outcome.Raised? ==> new_.status == Failed && new_.error == Exception(outcome.message))
  {}

  /** From every reachable state the unfinished job can be brought to its end, and then the slot
      is free for every kind. */
  lemma CanAlwaysEnd(steps: seq<Step>, outcome: Outcome, now: nat) returns (more: seq<Step>)
    requires Unfinished(Run(INITIAL, steps)).Some?
    ensures var (s, s') := (Run(INITIAL, steps), Run(Run(INITIAL, steps), more));
            && Unfinished(s').None? && (forall k, u, n :: Enabled(s', Start(k, u, n)))
            && |s'.jobs| == |s.jobs| && s'.jobs[|s.jobs| - 1] == Job(Unfinished(s).value, Ended, 1)
            && OthersKept(s, s', Unfinished(s).value)
  {
    EveryRun(steps);
    var s := Run(INITIAL, steps);
    var j := |s.jobs| - 1;
    RunOneOrTwo(s, Spawn(j), Finish(j, outcome, now));
    if s.jobs[j].stage == Accepted {
      var working := SpawnWorks(s);
      EndWorking(working, outcome, now);
      more := [Spawn(j), Finish(j, outcome, now)];
    } else {
      EndWorking(s, outcome, now);
      more := [Finish(j, outcome, now)];
    }
  }

  lemma SpawnWorks(s: State) returns (working: State)
    requires Invariant(s) && s.jobs != [] && s.jobs[|s.jobs| - 1].stage == Accepted
    ensures working == Apply(s, Spawn(|s.jobs| - 1)) && Invariant(working) && working.entries == s.entries
    ensures |working.jobs| == |s.jobs|
    ensures working.jobs[|s.jobs| - 1] == s.jobs[|s.jobs| - 1].(stage := Working)
  {
    working := Apply(s, Spawn(|s.jobs| - 1));
    StepKeeps(s, Spawn(|s.jobs| - 1));
  }

  lemma EndWorking(s: State, outcome: Outcome, now: nat)
    requires Invariant(s) && s.jobs != [] && s.jobs[|s.jobs| - 1].stage == Working
    ensures var (j, kind) := (|s.jobs| - 1, s.jobs[|s.jobs| - 1].kind);
            var s' := Apply(s, Finish(j, outcome, now));
            && Unfinished(s').None? && (forall k, u, n :: Enabled(s', Start(k, u, n)))
            && |s'.jobs| == |s.jobs| && s'.jobs[j] == Job(kind, Ended, 1) && OthersKept(s, s', kind)
  {
    var j := |s.jobs| - 1;
    assert EntryAgrees(s, s.jobs[j].kind);
    StepKeeps(s, Finish(j, outcome, now));
    var s' := Apply(s, Finish(j, outcome, now));
    assert s'.jobs[j].stage == Ended;
    assert EntryAgrees(s', ForecastRefit) && EntryAgrees(s', Evidence);
  }

  lemma RunOneOrTwo(s: State, a: Step, b: Step)
    ensures Run(s, [b]) == Apply(s, b) && Run(s, [a, b]) == Apply(Apply(s, a), b)
  {
    hide Apply;
    assert [a, b][..1] == [a] && [a][..0] == [] && [b][..0] == [];
    assert Run(s, []) == s;
    assert Run(s, [a]) == Apply(s, a);
  }

  // ------------------------------------------------ the module's own state

  class Registry {
    var entries: map<Kind, Entry>
    ghost var jobs: seq<Job>

    ghost function Now(): State
      reads this
    {
      State(entries, jobs)
    }

    constructor ()
      ensures Now() == INITIAL && Invariant(Now())
    {
      entries, jobs := map[ForecastRefit := IDLE, Evidence := IDLE], [];
      new;
      EveryRun([]);
    }

    /** The walk shared by `running_kind` and `start`. */
    method FindRunning() returns (r: Option<Kind>)
      requires Invariant(Now())
      ensures r == RunningKind(entries) == Unfinished(Now())
    {
      assert KINDS[0] == ForecastRefit && KINDS[1] == Evidence;
      for i := 0 to |KINDS|
        invariant forall m :: 0 <= m < i ==> !IsRunning(entries, KINDS[m])
      {
        if entries[KINDS[i]].status == Running { return Some(KINDS[i]); }
      }
      return None;
    }

    /** True with the new state of `kind`, or false with the state of the job in the way. */
    method StartJob(kind: Kind, user: string, now: nat) returns (started: bool, reported: Kind, entry: Entry)
      requires Invariant(Now())
      modifies this
      ensures Invariant(Now()) && Now() == Apply(old(Now()), Start(kind, user, now))
      ensures started <==> Unfinished(old(Now())) == None
      ensures Some(reported) == Unfinished(Now()) && reported in entries && entry == entries[reported]
      ensures if started then reported == kind && entry == Started(user, now) else Now() == old(Now())
      ensures started ==> entry.startedBy == Some(user) && entry.startedAt == Some(now) && entry.finishedAt == None
    {
      StepKeeps(Now(), Start(kind, user, now));
      var other := FindRunning();
      if other.Some? {
        return false, other.value, entries[other.value];
      }
      entries := entries[kind := Started(user, now)];
      jobs := jobs + [Job(kind, Accepted, 0)];
      return true, kind, entries[kind];
    }

    /** The worker's terminal write. */
    method WriteOutcome(ghost j: nat, kind: Kind, outcome: Outcome, now: nat)
      requires Invariant(Now()) && Enabled(Now(), Finish(j, outcome, now)) && jobs[j].kind == kind
      modifies this
      ensures Invariant(Now()) && Now() == Apply(old(Now()), Finish(j, outcome, now))
      ensures Unfinished(Now()) == None && entries[kind].status != Running
      ensures entries[kind].status == Finished <==> outcome.Exit? && outcome.code == 0
      ensures entries[kind].finishedAt == Some(now) && entries[kind].startedBy == old(entries)[kind].startedBy
      ensures outcome.Exit? ==> entries[kind].summary == outcome.tail
    {
      StepKeeps(Now(), Finish(j, outcome, now));
      entries := entries[kind := Written(entries[kind], outcome, now)];
      jobs := jobs[j := Job(kind, Ended, jobs[j].writes + 1)];
    }
  }
}
