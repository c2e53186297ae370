/** The cached optimizer context against the jobs that make it stale.

    A context is identified by the version of the database it was built from; a version is
    the number of commits that changed the inputs. Steps are the atomic actions of
    `get_context` (whose fast path reads the global twice), of `recompute_candidates`,
    of `nightly_refit` with its `reset_context`, and of a writer outside the process. The
    candidate set in the database is known by the version it was made from; writing it is
    one step. A step a thread cannot take changes nothing. */
module ContextCache {
  import opened Wrappers

  type Tid = nat
  type Version = nat

  datatype Stage =
    | Checked              // get_context: the first read saw a context, no lock held
    | Waiting              // get_context: the first read saw None, wants the lock
    | Inside               // get_context: holds the lock, about to look again
    | Built(v: Version)    // get_context: holds the lock and a freshly built context
    | Stored               // get_context: holds the lock, about to return the global
    | RWaiting             // recompute_candidates: wants the lock
    | RInside              // recompute_candidates: holds the lock, about to build
    | RBuilt(v: Version)   // recompute_candidates: holds the lock and its new context
    | Published(v: Version)  // recompute_candidates: lock released, will write the candidate set
    | Written(v: Version)    // nightly_refit: has committed version v, will build a context
    | Prepared(v: Version, w: Version)  // nightly_refit: has built w, will write the candidate set
    | Refitted(v: Version)   // nightly_refit: will reset

  datatype State = State(db: Version, context: Option<Version>, table: Option<Version>, owner: Option<Tid>,
                         threads: map<Tid, Stage>)

  datatype Step =
    | FirstRead(t: Tid) | SecondRead(t: Tid)
    | Lock(t: Tid) | LookAgain(t: Tid) | Store(t: Tid) | Leave(t: Tid)
    | AskRecompute(t: Tid) | Rebuild(t: Tid) | Publish(t: Tid)
    | Refit(t: Tid) | Prepare(t: Tid) | Reset(t: Tid)
    | Materialise(t: Tid)
    | OutsideWrite

  const INITIAL := State(0, None, None, None, map[])

  predicate At(s: State, t: Tid, stage: Stage) { t in s.threads && s.threads[t] == stage }

  predicate Holding(stage: Stage) { stage.Inside? || stage.Built? || stage.Stored? || stage.RInside? || stage.RBuilt? }

  function To(s: State, t: Tid, stage: Stage): State { s.(threads := s.threads[t := stage]) }

  function Done(s: State, t: Tid): State { s.(threads := s.threads - {t}) }

  predicate Enabled(s: State, step: Step) {
    match step
    case FirstRead(t) => t !in s.threads
    case SecondRead(t) => At(s, t, Checked)
    case Lock(t) => s.owner.None? && (At(s, t, Waiting) || At(s, t, RWaiting))
    case LookAgain(t) => At(s, t, Inside)
    case Store(t) => t in s.threads && s.threads[t].Built?
    case Leave(t) => At(s, t, Stored)
    case AskRecompute(t) => t !in s.threads
    case Rebuild(t) => At(s, t, RInside)
    case Publish(t) => t in s.threads && s.threads[t].RBuilt?
    case Refit(t) => t !in s.threads
    case Prepare(t) => t in s.threads && s.threads[t].Written?
    case Reset(t) => s.owner.None? && t in s.threads && s.threads[t].Refitted?
    case Materialise(t) => t in s.threads && (s.threads[t].Published? || s.threads[t].Prepared?)
    case OutsideWrite => true
  }

  function Apply(s: State, step: Step): State {
    if !Enabled(s, step) then s else
    match step
    case FirstRead(t) => To(s, t, if s.context.Some? then Checked else Waiting)
    case SecondRead(t) => Done(s, t)
    case Lock(t) => To(s, t, if s.threads[t].Waiting? then Inside else RInside).(owner := Some(t))
    case LookAgain(t) => To(s, t, if s.context.Some? then Stored else Built(s.db))
    case Store(t) => To(s, t, Stored).(context := Some(s.threads[t].v))
    case Leave(t) => Done(s, t).(owner := None)
    case AskRecompute(t) => To(s, t, RWaiting)
    case Rebuild(t) => To(s, t, RBuilt(s.db))
    case Publish(t) => To(s, t, Published(s.threads[t].v)).(context := Some(s.threads[t].v), owner := None)
    case Refit(t) => To(s, t, Written(s.db + 1)).(db := s.db + 1)
    case Prepare(t) => To(s, t, Prepared(s.threads[t].v, s.db))
    case Materialise(t) =>
      var stage := s.threads[t];
      if stage.Published? then Done(s, t).(table := Some(stage.v))
      else To(s, t, Refitted(stage.v)).(table := Some(stage.w))
    case Reset(t) => Done(s, t).(context := None)
    case OutsideWrite => s.(db := s.db + 1)
  }

  function Run(s: State, steps: seq<Step>): State {
    if steps == [] then s else Apply(Run(s, steps[..|steps| - 1]), steps[|steps| - 1])
  }

  // ------------------------------------------------ the invariant

  /** The lock has at most one owner, and it is the thread that holds it. */
  ghost predicate OneOwner(s: State) {
    && (forall t :: t in s.threads && Holding(s.threads[t]) ==> s.owner == Some(t))
    && (s.owner.Some? ==> s.owner.value in s.threads && Holding(s.threads[s.owner.value]))
  }

  /** Nothing is built from a version that does not exist yet, and a context about to be
      stored is not older than the one it replaces. */
  predicate StageSane(s: State, stage: Stage) {
    match stage
    case Built(v) => s.context.None? && v <= s.db
    case RBuilt(v) => v <= s.db && (s.context.Some? ==> s.context.value <= v)
    case Stored => s.context.Some?
    case Written(v) => v <= s.db
    case Prepared(v, w) => v <= w <= s.db
    case Published(v) => v <= s.db
    case Refitted(v) => v <= s.db
    case _ => true
  }

  ghost predicate Sane(s: State) {
    && OneOwner(s)
    && (s.context.Some? ==> s.context.value <= s.db)
    && (forall t :: t in s.threads ==> StageSane(s, s.threads[t]))
  }

  lemma StepKeepsOwner(s: State, step: Step)
    requires OneOwner(s)
    ensures OneOwner(Apply(s, step))
  {}

  lemma StepKeepsStages(s: State, step: Step)
    requires Sane(s)
    ensures var s' := Apply(s, step); forall t :: t in s'.threads ==> StageSane(s', s'.threads[t])
  {}

  lemma StepKeepsSane(s: State, step: Step)
    requires Sane(s)
    ensures Sane(Apply(s, step))
  {
    StepKeepsOwner(s, step);
    StepKeepsStages(s, step);
    hide StageSane, OneOwner;
  }

  lemma {:induction false} EveryRunIsSane(steps: seq<Step>)
    ensures Sane(Run(INITIAL, steps))
  {
    if steps != [] {
      EveryRunIsSane(steps[..|steps| - 1]);
      StepKeepsSane(Run(INITIAL, steps[..|steps| - 1]), steps[|steps| - 1]);
    }
  }

  // ------------------------------------------------ freshness

  /** Nothing cached, and nothing on its way into the cache, is older than `floor`. */
  ghost predicate AtLeast(s: State, floor: Version) {
    && floor <= s.db
    && (s.context.Some? ==> floor <= s.context.value)
    && (forall t :: t in s.threads && (s.threads[t].Built? || s.threads[t].RBuilt?) ==> floor <= s.threads[t].v)
  }

  lemma StepKeepsAtLeast(s: State, floor: Version, step: Step)
    requires Sane(s) && AtLeast(s, floor)
    ensures AtLeast(Apply(s, step), floor)
  {}

  lemma {:induction false} AtLeastForever(s: State, floor: Version, after: seq<Step>)
    requires Sane(s) && AtLeast(s, floor)
    ensures Sane(Run(s, after)) && AtLeast(Run(s, after), floor)
  {
    hide Apply, Sane, AtLeast;
    if after != [] {
      var prior := Run(s, after[..|after| - 1]);
      AtLeastForever(s, floor, after[..|after| - 1]);
      StepKeepsSane(prior, after[|after| - 1]);
      StepKeepsAtLeast(prior, floor, after[|after| - 1]);
    }
  }

  /** Once the nightly refit has written version v and reset the cache, no context cached
      in any continuation is older than v, whatever was in progress at the reset. */
  lemma FreshAfterRefit(before: seq<Step>, t: Tid, v: Version, after: seq<Step>)
    requires At(Run(INITIAL, before), t, Refitted(v)) && Enabled(Run(INITIAL, before), Reset(t))
    ensures var s := Run(Apply(Run(INITIAL, before), Reset(t)), after);
            s.context.Some? ==> s.context.value >= v
  {
    EveryRunIsSane(before);
    var s := Run(INITIAL, before);
    StepKeepsSane(s, Reset(t));
    AtLeastForever(Apply(s, Reset(t)), v, after);
  }

  /** Versions stored in the cache never go backwards, resets in between or not. */
  lemma NeverBackwards(before: seq<Step>, after: seq<Step>)
    ensures var s := Run(INITIAL, before);
            var s' := Run(s, after);
            s.context.Some? && s'.context.Some? ==> s.context.value <= s'.context.value
  {
    EveryRunIsSane(before);
    var s := Run(INITIAL, before);
    if s.context.Some? { AtLeastForever(s, s.context.value, after); }
  }

  /** Nothing thread t has built is older than `floor`. */
  predicate BuiltSince(s: State, t: Tid, floor: Version) {
    floor <= s.db &&
    (t in s.threads ==>
       match s.threads[t]
       case Built(v) => floor <= v
       case RBuilt(v) => floor <= v
       case Prepared(_, w) => floor <= w
       case _ => true)
  }

  lemma StepKeepsBuiltSince(s: State, t: Tid, floor: Version, step: Step)
    requires BuiltSince(s, t, floor)
    ensures BuiltSince(Apply(s, step), t, floor)
  {}

  /** What a thread builds from now on is not older than the data is now: a recomputation asked
      for after a change publishes the change, a request that finds nothing cached sees it, and
      a nightly refit writes a candidate set that has it. */
  lemma {:induction false} BuildsAreCurrent(s: State, t: Tid, steps: seq<Step>)
    requires t in s.threads ==> !s.threads[t].Built? && !s.threads[t].RBuilt? && !s.threads[t].Prepared?
    ensures BuiltSince(Run(s, steps), t, s.db)
  {
    if steps != [] {
      BuildsAreCurrent(s, t, steps[..|steps| - 1]);
      hide Apply, BuiltSince;
      StepKeepsBuiltSince(Run(s, steps[..|steps| - 1]), t, s.db, steps[|steps| - 1]);
    }
  }

  /** And the candidate set of the refit is never older than what the refit itself committed. */
  lemma RefitSetHasRefit(before: seq<Step>, t: Tid, v: Version, w: Version)
    requires At(Run(INITIAL, before), t, Prepared(v, w))
    ensures v <= w && Apply(Run(INITIAL, before), Materialise(t)).table == Some(w)
  {
    EveryRunIsSane(before);
    assert StageSane(Run(INITIAL, before), Prepared(v, w));
  }

  // ------------------------------------------------ what get_context returns

  /** The value handed to the caller by a step that ends `get_context`. */
  function Returned(s: State, step: Step): Option<Version>
    requires Enabled(s, step) && (step.SecondRead? || step.Leave?)
  {
    s.context
  }

  /** The locked path always returns a context. */
  lemma LockedPathReturnsContext(before: seq<Step>, t: Tid)
    requires Enabled(Run(INITIAL, before), Leave(t))
    ensures Returned(Run(INITIAL, before), Leave(t)).Some?
  {
    EveryRunIsSane(before);
  }

  predicate Resets(s: State, step: Step) { step.Reset? && Enabled(s, step) }

  predicate Fills(s: State, step: Step) { (step.Store? || step.Publish?) && Enabled(s, step) }

  /** Some reset took effect and nothing was stored after it. */
  ghost predicate ResetLast(s: State, steps: seq<Step>) {
    exists i :: 0 <= i < |steps| && Resets(Run(s, steps[..i]), steps[i])
      && forall j :: i < j < |steps| ==> !Fills(Run(s, steps[..j]), steps[j])
  }

  lemma EmptyAfterStep(s: State, step: Step)
    ensures Apply(s, step).context.None? <==> Resets(s, step) || (s.context.None? && !Fills(s, step))
  {}

  lemma ResetLastAppend(s: State, before: seq<Step>, last: Step, steps: seq<Step>)
    requires steps == before + [last]
    ensures ResetLast(s, steps) <==>
              Resets(Run(s, before), last) || (ResetLast(s, before) && !Fills(Run(s, before), last))
  {
    hide Run, Resets, Fills;
    var n := |before|;
    assert steps[..n] == before && steps[n] == last;
    assert forall i :: 0 <= i <= n ==> before[..i] == steps[..i];
    if Resets(Run(s, before), last) { assert Resets(Run(s, steps[..n]), steps[n]); }
    if ResetLast(s, before) && !Fills(Run(s, before), last) {
      var i :| 0 <= i < n && Resets(Run(s, before[..i]), before[i])
        && forall j :: i < j < n ==> !Fills(Run(s, before[..j]), before[j]);
      assert Resets(Run(s, steps[..i]), steps[i]);
      forall j | i < j < |steps| ensures !Fills(Run(s, steps[..j]), steps[j]) {
        if j < n { assert before[j] == steps[j]; }
      }
    }
    if ResetLast(s, steps) && !Resets(Run(s, before), last) {
      var i :| 0 <= i < |steps| && Resets(Run(s, steps[..i]), steps[i])
        && forall j :: i < j < |steps| ==> !Fills(Run(s, steps[..j]), steps[j]);
      assert i < n;
      assert Resets(Run(s, before[..i]), before[i]);
      forall j | i < j < n ensures !Fills(Run(s, before[..j]), before[j]) { assert before[j] == steps[j]; }
      assert !Fills(Run(s, steps[..n]), steps[n]);
    }
  }

  lemma {:induction false} EmptyIffResetLast(s: State, steps: seq<Step>)
    requires s.context.Some?
    ensures Run(s, steps).context.None? <==> ResetLast(s, steps)
  {
    hide Apply, Enabled, Resets, Fills, ResetLast;
    if steps == [] {
      NoStepsNoReset(s);
    } else {
      var n := |steps| - 1;
      EmptyIffResetLast(s, steps[..n]);
      EmptyAfterStep(Run(s, steps[..n]), steps[n]);
      ResetLastAppend(s, steps[..n], steps[n], steps);
    }
  }

  lemma NoStepsNoReset(s: State)
    ensures !ResetLast(s, [])
  {}

  /** The fast path reads the global twice. Started on a cached context, it returns one if
      and only if no reset slipped in between the two reads without a store after it. */
  lemma FastPathReturnsContextIff(before: seq<Step>, t: Tid, between: seq<Step>)
    requires var s := Run(INITIAL, before); Enabled(s, FirstRead(t)) && s.context.Some?
    requires Enabled(Run(Apply(Run(INITIAL, before), FirstRead(t)), between), SecondRead(t))
    ensures var s := Apply(Run(INITIAL, before), FirstRead(t));
            Returned(Run(s, between), SecondRead(t)).Some? <==> !ResetLast(s, between)
  {
    EmptyIffResetLast(Apply(Run(INITIAL, before), FirstRead(t)), between);
  }

  /** A run of three threads in which `get_context` returns None to its caller: thread 1
      fills the cache, thread 2 refits and resets between the two reads of thread 3. */
  lemma FastPathCanReturnNothing() returns (steps: seq<Step>)
    ensures Enabled(Run(INITIAL, steps), SecondRead(3))
    ensures Returned(Run(INITIAL, steps), SecondRead(3)) == None
  {
    hide Run;
    EmptyRun(INITIAL);
    var s := INITIAL;
    steps := [];
    steps, s := Extend(steps, s, FirstRead(1));
    assert s.threads == map[1 := Waiting];
    steps, s := Extend(steps, s, Lock(1));
    assert s.threads == map[1 := Inside];
    steps, s := Extend(steps, s, LookAgain(1));
    assert s.threads == map[1 := Built(0)];
    steps, s := Extend(steps, s, Store(1));
    assert s.threads == map[1 := Stored];
    steps, s := Extend(steps, s, Leave(1));
    assert s.threads == map[];
    steps, s := Extend(steps, s, Refit(2));
    assert s.threads == map[2 := Written(1)];
    steps, s := Extend(steps, s, Prepare(2));
    assert s.threads == map[2 := Prepared(1, 1)];
    steps, s := Extend(steps, s, Materialise(2));
    assert s.threads == map[2 := Refitted(1)];
    steps, s := Extend(steps, s, FirstRead(3));
    assert s.threads == map[2 := Refitted(1), 3 := Checked];
    steps, s := Extend(steps, s, Reset(2));
    assert s.threads == map[3 := Checked];
  }

  lemma Extend(before: seq<Step>, s: State, step: Step) returns (steps: seq<Step>, s': State)
    requires s == Run(INITIAL, before)
    ensures steps == before + [step] && s' == Apply(s, step) == Run(INITIAL, steps)
  {
    steps := before + [step];
    s' := RunOne(INITIAL, before, step, steps);
  }

  lemma EmptyRun(s: State)
    ensures Run(s, []) == s
  {}

  lemma RunOne(s: State, before: seq<Step>, step: Step, steps: seq<Step>) returns (r: State)
    requires steps == before + [step]
    ensures r == Run(s, steps) == Apply(Run(s, before), step)
  {
    assert steps[..|before|] == before;
    r := Run(s, steps);
  }

  // ------------------------------------------------ the context and the candidate set

  /** The version a step puts into the cache. */
  function Filled(s: State, step: Step): Version
    requires Fills(s, step)
  {
    s.threads[step.t].v
  }

  /** Whatever is stored, nothing older is stored after it. */
  lemma FillIsFloor(s: State, step: Step)
    requires Sane(s) && Fills(s, step)
    ensures Sane(Apply(s, step)) && AtLeast(Apply(s, step), Filled(s, step))
    ensures Apply(s, step).context == Some(Filled(s, step))
  {
    StepKeepsSane(s, step);
  }

  lemma RunSplit(s: State, steps: seq<Step>, i: nat)
    requires i <= |steps|
    ensures Run(s, steps) == Run(Run(s, steps[..i]), steps[i..])
  {
    hide Apply;
    if i == |steps| {
      assert steps[..i] == steps && steps[i..] == [];
    } else {
      var n := |steps| - 1;
      RunSplit(s, steps[..n], i);
      assert steps[..n][..i] == steps[..i] && steps[i..][..n - i] == steps[..n][i..];
    }
  }

  /** What a step stores is a floor for what is cached at the end. */
  lemma FillBounds(s: State, steps: seq<Step>, i: nat)
    requires Sane(s) && i < |steps| && Fills(Run(s, steps[..i]), steps[i])
    ensures Run(s, steps).context.Some? ==> Run(s, steps).context.value >= Filled(Run(s, steps[..i]), steps[i])
  {
    var mid := Run(s, steps[..i]);
    SaneForever(s, steps[..i]);
    FillIsFloor(mid, steps[i]);
    FloorBounds(s, steps, i, Filled(mid, steps[i]));
  }

  lemma FloorBounds(s: State, steps: seq<Step>, i: nat, floor: Version)
    requires i < |steps|
    requires var next := Apply(Run(s, steps[..i]), steps[i]); Sane(next) && AtLeast(next, floor)
    ensures Run(s, steps).context.Some? ==> Run(s, steps).context.value >= floor
  {
    hide Sane, Apply, Run;
    var next := RunOne(s, steps[..i], steps[i], steps[..i + 1]);
    AtLeastForever(next, floor, steps[i + 1..]);
    RunSplit(s, steps, i + 1);
  }

  lemma SaneForever(s: State, steps: seq<Step>)
    requires Sane(s)
    ensures Sane(Run(s, steps))
  {
    assert Sane(Run(s, steps)) by { AtLeastForever(s, 0, steps); }
  }

  /** So is what was cached at the start. */
  lemma ContextBounds(s: State, steps: seq<Step>)
    requires Sane(s) && s.context.Some?
    ensures Run(s, steps).context.Some? ==> Run(s, steps).context.value >= s.context.value
  {
    AtLeastForever(s, s.context.value, steps);
  }

  /** Version v was stored on the way. */
  predicate StoredWithin(s: State, steps: seq<Step>, v: Version) {
    exists i :: 0 <= i < |steps| && Fills(Run(s, steps[..i]), steps[i]) && Filled(Run(s, steps[..i]), steps[i]) == v
  }

  lemma StoredLonger(s: State, steps: seq<Step>, v: Version)
    requires steps != [] && StoredWithin(s, steps[..|steps| - 1], v)
    ensures StoredWithin(s, steps, v)
  {
    hide Run, Fills;
    var n := |steps| - 1;
    var i :| 0 <= i < n && Fills(Run(s, steps[..n][..i]), steps[..n][i])
             && Filled(Run(s, steps[..n][..i]), steps[..n][i]) == v;
    assert steps[..n][..i] == steps[..i] && steps[..n][i] == steps[i];
  }

  /** What is cached at the end was cached at the start or stored on the way. */
  lemma {:induction false} ContextHasSource(s: State, steps: seq<Step>)
    ensures var c := Run(s, steps).context; c.Some? ==> c == s.context || StoredWithin(s, steps, c.value)
  {
    if steps != [] {
      var n := |steps| - 1;
      ContextHasSource(s, steps[..n]);
      ContextAfterStep(Run(s, steps[..n]), steps[n]);
      var c := Run(s, steps).context;
      hide Apply, Fills;
      if c.Some? && c == Run(s, steps[..n]).context && c != s.context { StoredLonger(s, steps, c.value); }
    }
  }

  lemma ContextAfterStep(s: State, step: Step)
    ensures var c := Apply(s, step).context;
            if Fills(s, step) then c == Some(Filled(s, step)) else c.None? || c == s.context
  {}

  /** The step writes the candidate set. */
  predicate Makes(s: State, step: Step) { step.Materialise? && Enabled(s, step) }

  /** The version it is made from. */
  function Made(s: State, step: Step): Version
    requires Makes(s, step)
  {
    if s.threads[step.t].Published? then s.threads[step.t].v else s.threads[step.t].w
  }

  predicate NoneMakes(s: State, steps: seq<Step>, from: nat) {
    forall i :: from <= i < |steps| ==> !Makes(Run(s, steps[..i]), steps[i])
  }

  lemma TableAfterStep(s: State, step: Step)
    ensures Apply(s, step).table == if Makes(s, step) then Some(Made(s, step)) else s.table
  {}

  lemma {:induction false} TableKept(s: State, steps: seq<Step>, from: nat)
    requires from <= |steps| && NoneMakes(s, steps, from)
    ensures Run(s, steps).table == Run(s, steps[..from]).table
  {
    var n := |steps| - 1;
    if from == |steps| {
      assert steps[..from] == steps;
    } else {
      TableAfterStep(Run(s, steps[..n]), steps[n]);
      hide Apply, Makes;
      forall i | 0 <= i < n ensures steps[..n][..i] == steps[..i] && steps[..n][i] == steps[i] {}
      TableKept(s, steps[..n], from);
      assert steps[..n][..from] == steps[..from];
    }
  }

  /** Nothing newer than w was cached at the start or stored on the way, and w was. */
  ghost predicate NewestIs(s: State, steps: seq<Step>, w: Version) {
    && (forall v: Version :: StoredWithin(s, steps, v) ==> v <= w)
    && (s.context.Some? ==> s.context.value <= w)
    && (s.context == Some(w) || StoredWithin(s, steps, w))
  }

  lemma CachedIffNewest(s: State, steps: seq<Step>, w: Version)
    requires Sane(s) && Run(s, steps).context.Some?
    ensures Run(s, steps).context == Some(w) <==> NewestIs(s, steps, w)
  {
    hide Run, Sane, StoredWithin;
    if s.context.Some? { ContextBounds(s, steps); }
    ContextHasSource(s, steps);
    forall v: Version | StoredWithin(s, steps, v) ensures Run(s, steps).context.value >= v {
      StoredBounds(s, steps, v);
    }
  }

  /** Once the candidate set has been written for the last time, from version w, it is of that
      version, whoever wrote it; and a context that is cached at the end is paired with it
      exactly when nothing newer than w was cached at the time or stored since, and w was. */
  lemma PairedIff(before: seq<Step>, rest: seq<Step>)
    requires var s := Run(INITIAL, before); rest != [] && Makes(s, rest[0]) && NoneMakes(s, rest, 1)
    ensures var s := Run(INITIAL, before);
            var (w, end) := (Made(s, rest[0]), Run(s, rest));
            end.table == Some(w) && (end.context.Some? ==> (end.context == end.table <==> NewestIs(s, rest, w)))
  {
    EveryRunIsSane(before);
    hide Sane, NewestIs, Makes, Apply, NoneMakes;
    var s := Run(INITIAL, before);
    TableAfterStep(s, rest[0]);
    OneStep(s, rest[0]);
    assert rest[..1] == [rest[0]];
    TableKept(s, rest, 1);
    if Run(s, rest).context.Some? { CachedIffNewest(s, rest, Made(s, rest[0])); }
  }

  lemma OneStep(s: State, step: Step)
    ensures Run(s, [step]) == Apply(s, step)
  {
    assert [step][..0] == [];
  }

  lemma StoredBounds(s: State, steps: seq<Step>, v: Version)
    requires Sane(s) && StoredWithin(s, steps, v)
    ensures Run(s, steps).context.Some? ==> Run(s, steps).context.value >= v
  {
    hide Sane, Run, Fills;
    var i :| 0 <= i < |steps| && Fills(Run(s, steps[..i]), steps[i]) && Filled(Run(s, steps[..i]), steps[i]) == v;
    FillBounds(s, steps, i);
  }

  /** Before the candidate set has been written at all there is none to be paired with. */
  lemma NoSetYet(steps: seq<Step>)
    requires NoneMakes(INITIAL, steps, 0)
    ensures Run(INITIAL, steps).table.None?
  {
    TableKept(INITIAL, steps, 0);
    assert steps[..0] == [];
  }

  /** Two recomputations can un-pair the two: both publish in order under the lock, and write
      the candidate set after it in the other order. Everything is at rest, the cached context
      is of version 1, the set that explains its runs of version 0. */
  lemma RecomputationsCanUnpair() returns (steps: seq<Step>)
    ensures Run(INITIAL, steps) == State(1, Some(1), Some(0), None, map[])
  {
    hide Run;
    EmptyRun(INITIAL);
    var s := INITIAL;
    steps := [];
    steps, s := Extend(steps, s, AskRecompute(1));
    assert s.threads == map[1 := RWaiting];
    steps, s := Extend(steps, s, Lock(1));
    assert s.threads == map[1 := RInside];
    steps, s := Extend(steps, s, Rebuild(1));
    assert s.threads == map[1 := RBuilt(0)];
    steps, s := Extend(steps, s, Publish(1));
    assert s.threads == map[1 := Published(0)];
    steps, s := Extend(steps, s, OutsideWrite);
    steps, s := Extend(steps, s, AskRecompute(2));
    assert s.threads == map[1 := Published(0), 2 := RWaiting];
    steps, s := Extend(steps, s, Lock(2));
    assert s.threads == map[1 := Published(0), 2 := RInside];
    steps, s := Extend(steps, s, Rebuild(2));
    assert s.threads == map[1 := Published(0), 2 := RBuilt(1)];
    steps, s := Extend(steps, s, Publish(2));
    assert s.threads == map[1 := Published(0), 2 := Published(1)];
    steps, s := Extend(steps, s, Materialise(2));
    assert s.threads == map[1 := Published(0)];
    steps, s := Extend(steps, s, Materialise(1));
    assert s.threads == map[];
  }

  /** So can one nightly refit: the data changes between its building and its writing of the
      candidate set, and the first request after its reset builds from the newer data. */
  lemma RefitCanUnpair() returns (steps: seq<Step>)
    ensures Run(INITIAL, steps) == State(2, Some(2), Some(1), None, map[])
  {
    hide Run;
    EmptyRun(INITIAL);
    var s := INITIAL;
    steps := [];
    steps, s := Extend(steps, s, Refit(1));
    assert s.threads == map[1 := Written(1)];
    steps, s := Extend(steps, s, Prepare(1));
    assert s.threads == map[1 := Prepared(1, 1)];
    steps, s := Extend(steps, s, OutsideWrite);
    steps, s := Extend(steps, s, Materialise(1));
    assert s.threads == map[1 := Refitted(1)];
    steps, s := Extend(steps, s, Reset(1));
    assert s.threads == map[];
    steps, s := Extend(steps, s, FirstRead(2));
    assert s.threads == map[2 := Waiting];
    steps, s := Extend(steps, s, Lock(2));
    assert s.threads == map[2 := Inside];
    steps, s := Extend(steps, s, LookAgain(2));
    assert s.threads == map[2 := Built(2)];
    steps, s := Extend(steps, s, Store(2));
    assert s.threads == map[2 := Stored];
    steps, s := Extend(steps, s, Leave(2));
    assert s.threads == map[];
  }

  // ------------------------------------------------ the writer outside the process

  predicate OnlyReaders(steps: seq<Step>) {
    forall i :: 0 <= i < |steps| ==> !steps[i].Publish? && !steps[i].Reset?
  }

  /** Without a reset or a recomputation the cached context is frozen. */
  lemma {:induction false} FrozenWithoutReset(s: State, after: seq<Step>)
    requires Sane(s) && s.context.Some? && OnlyReaders(after)
    ensures Sane(Run(s, after)) && Run(s, after).context == s.context
  {
    if after != [] {
      FrozenWithoutReset(s, after[..|after| - 1]);
      StepKeepsSane(Run(s, after[..|after| - 1]), after[|after| - 1]);
    }
  }

  /** The refit that runs in its own process commits and never resets: from any reachable
      state with a context cached, that context is older than the data from then on, as long
      as there are only readers and other commits. */
  lemma OutsideRefitStaysStale(before: seq<Step>, after: seq<Step>)
    requires Run(INITIAL, before).context.Some? && OnlyReaders(after)
    ensures var s := Run(Apply(Run(INITIAL, before), OutsideWrite), after);
            s.context == Run(INITIAL, before).context && s.context.value < s.db
  {
    EveryRunIsSane(before);
    var s := Apply(Run(INITIAL, before), OutsideWrite);
    StepKeepsSane(Run(INITIAL, before), OutsideWrite);
    FrozenWithoutReset(s, after);
    DbGrows(s, after);
  }

  lemma {:induction false} DbGrows(s: State, after: seq<Step>)
    ensures s.db <= Run(s, after).db
  {
    if after != [] { DbGrows(s, after[..|after| - 1]); }
  }

  /** The cache is emptied, or filled from data no older than d. */
  predicate Refreshes(s: State, step: Step, d: Version) {
    Resets(s, step) || (Fills(s, step) && Filled(s, step) >= d)
  }

  predicate RefreshedWithin(s: State, steps: seq<Step>, d: Version) {
    exists i :: 0 <= i < |steps| && Refreshes(Run(s, steps[..i]), steps[i], d)
  }

  lemma RefreshIsFloor(s: State, step: Step, d: Version)
    requires Sane(s) && Refreshes(s, step, d) && d <= s.db
    ensures Sane(Apply(s, step)) && AtLeast(Apply(s, step), d)
  {
    StepKeepsSane(s, step);
    if Fills(s, step) { FillIsFloor(s, step); }
  }

  lemma {:induction false} StaleUntilRefreshed(s: State, steps: seq<Step>, d: Version)
    requires s.context.Some? && s.context.value < d && !RefreshedWithin(s, steps, d)
    ensures Run(s, steps).context.Some? && Run(s, steps).context.value < d
  {
    if steps != [] {
      var n := |steps| - 1;
      var mid := Run(s, steps[..n]);
      ContextAfterStep(mid, steps[n]);
      EmptyAfterStep(mid, steps[n]);
      assert !Refreshes(mid, steps[n], d);
      hide Apply, Fills, Resets;
      forall i | 0 <= i < n ensures !Refreshes(Run(s, steps[..n][..i]), steps[..n][i], d) {
        assert steps[..n][..i] == steps[..i] && steps[..n][i] == steps[i];
      }
      StaleUntilRefreshed(s, steps[..n], d);
    }
  }

  /** After it, a cached context is as new as that commit exactly when since then the cache has
      been reset, or filled from data at least that new. A recomputation alone is not enough:
      it may have built before. */
  lemma FreshAfterOutsideRefitIff(before: seq<Step>, after: seq<Step>)
    requires Run(INITIAL, before).context.Some?
    ensures var s := Apply(Run(INITIAL, before), OutsideWrite);
            var end := Run(s, after);
            (end.context.Some? ==> end.context.value >= s.db) <==> RefreshedWithin(s, after, s.db)
  {
    EveryRunIsSane(before);
    var s := Apply(Run(INITIAL, before), OutsideWrite);
    StepKeepsSane(Run(INITIAL, before), OutsideWrite);
    assert s.context.Some? && s.context.value < s.db;
    if RefreshedWithin(s, after, s.db) {
      hide Run, Refreshes, Apply, Sane, AtLeast;
      var i :| 0 <= i < |after| && Refreshes(Run(s, after[..i]), after[i], s.db);
      SaneForever(s, after[..i]);
      DbGrows(s, after[..i]);
      RefreshIsFloor(Run(s, after[..i]), after[i], s.db);
      FloorBounds(s, after, i, s.db);
    } else {
      StaleUntilRefreshed(s, after, s.db);
    }
  }

  /** A recomputation that built before the commit publishes after it, and at rest the cached
      context is still the older one. */
  lemma RecomputationCanPublishStale() returns (before: seq<Step>, after: seq<Step>)
    ensures Run(INITIAL, before).context.Some?
    ensures Run(Apply(Run(INITIAL, before), OutsideWrite), after) == State(1, Some(0), Some(0), None, map[])
  {
    hide Run;
    EmptyRun(INITIAL);
    var s := INITIAL;
    before := [];
    before, s := Extend(before, s, AskRecompute(1));
    before, s := Extend(before, s, Lock(1));
    before, s := Extend(before, s, Rebuild(1));
    before, s := Extend(before, s, Publish(1));
    assert s.threads == map[1 := Published(0)];
    before, s := Extend(before, s, Materialise(1));
    assert s.threads == map[];
    before, s := Extend(before, s, AskRecompute(2));
    before, s := Extend(before, s, Lock(2));
    before, s := Extend(before, s, Rebuild(2));
    assert s == State(0, Some(0), Some(0), Some(2), map[2 := RBuilt(0)]);
    var w := Apply(s, OutsideWrite);
    after := [Publish(2), Materialise(2)];
    EmptyRun(w);
    var a := RunOne(w, [], Publish(2), [Publish(2)]);
    assert a.threads == map[2 := Published(0)];
    var b := RunOne(w, [Publish(2)], Materialise(2), after);
    assert b.threads == map[];
  }

  lemma ReaderBuilds(s: State, t: Tid)
    requires Sane(s) && At(s, t, Inside) && s.context.None?
    ensures Run(s, [LookAgain(t), Store(t), Leave(t)])
         == State(s.db, Some(s.db), s.table, None, s.threads - {t})
    ensures Sane(Run(s, [LookAgain(t), Store(t), Leave(t)]))
  {
    hide Run, Sane;
    EmptyRun(s);
    var a := RunOne(s, [], LookAgain(t), [LookAgain(t)]);
    var b := RunOne(s, [LookAgain(t)], Store(t), [LookAgain(t), Store(t)]);
    var c := RunOne(s, [LookAgain(t), Store(t)], Leave(t), [LookAgain(t), Store(t), Leave(t)]);
    StepKeepsSane(s, LookAgain(t));
    StepKeepsSane(a, Store(t));
    StepKeepsSane(b, Leave(t));
    assert c.threads == s.threads - {t};
  }

  lemma ReaderFinds(s: State, t: Tid)
    requires Sane(s) && At(s, t, Inside) && s.context.Some?
    ensures Run(s, [LookAgain(t), Leave(t)]) == State(s.db, s.context, s.table, None, s.threads - {t})
    ensures Sane(Run(s, [LookAgain(t), Leave(t)]))
  {
    hide Run, Sane;
    EmptyRun(s);
    var a := RunOne(s, [], LookAgain(t), [LookAgain(t)]);
    var b := RunOne(s, [LookAgain(t)], Leave(t), [LookAgain(t), Leave(t)]);
    StepKeepsSane(s, LookAgain(t));
    StepKeepsSane(a, Leave(t));
    assert b.threads == s.threads - {t};
  }

  // ------------------------------------------------ the module's own state

  /** The global, its lock, and the database version, with the operations that touch them.
      The stages of the threads are kept beside them for the proof only. */
  class Process {
    var db: Version
    var context: Option<Version>
    var table: Option<Version>
    var owner: Option<Tid>
    ghost var threads: map<Tid, Stage>

    ghost function Now(): State
      reads this
    {
      State(db, context, table, owner, threads)
    }

    constructor ()
      ensures Now() == INITIAL && Sane(Now())
    {
      db, context, table, owner, threads := 0, None, None, None, map[];
    }

    /** Line one of `get_context`: true when the fast path will be taken. */
    method SeesContext(ghost t: Tid) returns (fast: bool)
      requires Sane(Now()) && t !in threads
      modifies this
      ensures Sane(Now()) && Now() == Apply(old(Now()), FirstRead(t)) && (fast <==> At(Now(), t, Checked))
    {
      fast := context.Some?;
      threads := threads[t := if fast then Checked else Waiting];
    }

    /** The second read of the fast path. */
    method ReturnUnlocked(ghost t: Tid) returns (r: Option<Version>)
      requires Sane(Now()) && Enabled(Now(), SecondRead(t))
      modifies this
      ensures Sane(Now()) && Now() == Apply(old(Now()), SecondRead(t)) && r == Returned(old(Now()), SecondRead(t))
    {
      r := context;
      threads := threads - {t};
    }

    /** The body of the `with`: build only if the global is still missing, and return it. */
    method BuildIfMissing(t: Tid) returns (r: Option<Version>)
      requires Sane(Now()) && At(Now(), t, Inside)
      modifies this
      ensures Sane(Now()) && r.Some? && context == r && owner.None?
      ensures old(context).Some? ==> Now() == Run(old(Now()), [LookAgain(t), Leave(t)])
      ensures old(context).None? ==> Now() == Run(old(Now()), [LookAgain(t), Store(t), Leave(t)]) && r == Some(db)
    {
      ghost var s := Now();
      if context.None? {
        ReaderBuilds(s, t);
        context := Some(db);
      } else {
        ReaderFinds(s, t);
      }
      r := context;
      owner := None;
      threads := threads - {t};
    }

    /** `reset_context`, once it has the lock. */
    method ResetContext(ghost t: Tid)
      requires Sane(Now()) && Enabled(Now(), Reset(t))
      modifies this
      ensures Sane(Now()) && Now() == Apply(old(Now()), Reset(t)) && AtLeast(Now(), old(threads[t].v))
    {
      context := None;
      threads := threads - {t};
    }

    /** The end of the critical section of `recompute_candidates`. */
    method PublishRebuilt(ghost t: Tid, v: Version)
      requires Sane(Now()) && At(Now(), t, RBuilt(v))
      modifies this
      ensures Sane(Now()) && Now() == Apply(old(Now()), Publish(t))
      ensures old(context).Some? ==> old(context).value <= context.value
    {
      context := Some(v);
      owner := None;
      threads := threads[t := Published(v)];
    }

    /** The end of `recompute_candidates`, after the lock: the rows of every other version are
        deleted and this one's are inserted. */
    method MaterialiseCandidates(ghost t: Tid, v: Version)
      requires Sane(Now()) && At(Now(), t, Published(v))
      modifies this
      ensures Sane(Now()) && Now() == Apply(old(Now()), Materialise(t)) && table == Some(v)
    {
      table := Some(v);
      threads := threads - {t};
    }
  }
}
