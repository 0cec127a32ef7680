/** The live engine's work is bounded by what commits and registrations give it: once they stop, it
    comes to rest. */
module LiveProgress {
  import opened Lex
  import opened Live
  import opened LiveMachine
  import opened LiveProperties

  /** Steps of the committing threads after their commit, and of the worker. */
  predicate EngineStep(step: Step) {
    match step
    case ByCommitter(c) => !c.Commit?
    case ByLoop(_) => true
    case ByPass(_) => true
    case _ => false
  }

  /** Everything else that can happen while nobody commits, registers or shuts down. */
  predicate IdleStep(step: Step) {
    match step
    case ByClient(e) => e.Cancel? || e.CloseSink?
    case ByRegister(g) => !g.RegInsert?
    case _ => false
  }

  // ---- the measure ------------------------------------------------------------------------

  function StepsLeft(at: ItemStep): nat {
    match at case AtClosed => 5 case AtContains => 4 case AtFirst => 3 case AtSecond(_) => 2 case AtEmit(_) => 1
  }

  /** A full pass over `cap` subscriptions. */
  function PassCost(cap: nat): nat { 5 * cap + 1 }

  /** Steps the worker can still make before it waits again, if it never finds more than `cap`
      subscriptions. */
  function WorkerLeft(s: State, cap: nat): nat {
    match s.worker
    case Waiting => 0
    case Woken => PassCost(cap) + 2
    case Ready => PassCost(cap) + 1
    case Pass(work, _, at) => if work == [] then 1 else 5 * (|work| - 1) + StepsLeft(at) + 1
    case Exited => 0
  }

  function Marking(m: map<nat, Phase>): set<nat> { set n | n in m && m[n].ToMark? }

  function Waking(m: map<nat, Phase>): set<nat> { set n | n in m && m[n].ToWake? }

  /** A raised flag pays for one pass, a pending wake-up for raising the flag, a pending mark for
      a wake-up. */
  function Pending(flag: nat, marking: nat, waking: nat, wake: bool): nat {
    (flag + 2) * marking + (flag + 1) * waking + (if wake then flag else 0)
  }

  function FlagCost(cap: nat): nat { PassCost(cap) + 3 }

  /** The work left while there are at most `cap` subscriptions. */
  function CapMeasure(s: State, cap: nat): nat {
    Pending(FlagCost(cap), |Marking(s.committers)|, |Waking(s.committers)|, s.wake) + WorkerLeft(s, cap)
  }

  /** The work left while no subscription is added. */
  function Measure(s: State): nat { CapMeasure(s, |s.subs|) }

  lemma DirtyFewerThanSubs(work: seq<WorkItem>, subs: Subs)
    requires ListsDirty(work, subs)
    ensures |work| <= |subs|
  {
    var ids := set i | 0 <= i < |work| :: work[i].id;
    DistinctCount(work, |work|);
    assert ids == set i | 0 <= i < |work| :: work[i].id;
    assert ids <= subs.Keys;
    SubsetSize(ids, subs.Keys);
  }

  lemma {:induction false} DistinctCount(work: seq<WorkItem>, n: nat)
    requires n <= |work| && forall i, j :: 0 <= i < j < |work| ==> work[i].id != work[j].id
    ensures |set i | 0 <= i < n :: work[i].id| == n
  {
    if n != 0 {
      DistinctCount(work, n - 1);
      assert (set i | 0 <= i < n :: work[i].id) == (set i | 0 <= i < n - 1 :: work[i].id) + {work[n - 1].id};
    }
  }

  lemma SubsetSize<X>(a: set<X>, b: set<X>)
    requires a <= b
    ensures |a| <= |b|
  {
    assert b == a + (b - a);
  }

  // ---- every engine step uses it up ---------------------------------------------------------

  lemma PendingDecreases(flag: nat, marking: nat, waking: nat, wake: bool)
    ensures Pending(flag, marking, waking, wake) < Pending(flag, marking + 1, waking, wake)
    ensures Pending(flag, marking, waking + 1, wake) < Pending(flag, marking + 1, waking, wake)
    ensures Pending(flag, marking, waking, true) < Pending(flag, marking, waking + 1, wake)
  {
    assert (flag + 2) * (marking + 1) == (flag + 2) * marking + flag + 2;
    assert (flag + 1) * (waking + 1) == (flag + 1) * waking + flag + 1;
  }

  lemma MarkSets(s: State, n: nat)
    requires CommitterEnabled(s, Mark(n))
    ensures var t := CommitterNext(s, Mark(n));
            && |Marking(s.committers)| == |Marking(t.committers)| + 1
            && (|Waking(t.committers)| == |Waking(s.committers)| || |Waking(t.committers)| == |Waking(s.committers)| + 1)
            && t.worker == s.worker && t.wake == s.wake
  {
    PhaseMoves(s.committers, n);
  }

  lemma PhaseMoves(m: map<nat, Phase>, n: nat)
    requires n in m
    ensures m[n].ToMark? ==> |Marking(m)| == |Marking(m[n := ToWake])| + 1 && |Waking(m[n := ToWake])| == |Waking(m)| + 1
    ensures m[n].ToMark? ==> |Marking(m)| == |Marking(m - {n})| + 1 && |Waking(m - {n})| == |Waking(m)|
    ensures m[n].ToWake? ==> |Marking(m)| == |Marking(m - {n})| && |Waking(m)| == |Waking(m - {n})| + 1
  {
    if m[n].ToMark? {
      assert n in Marking(m) && n !in Waking(m);
      assert Marking(m[n := ToWake]) == Marking(m) - {n} == Marking(m - {n});
      assert Waking(m[n := ToWake]) == Waking(m) + {n} && Waking(m - {n}) == Waking(m);
    } else {
      assert n in Waking(m);
      assert Waking(m - {n}) == Waking(m) - {n} && Marking(m - {n}) == Marking(m);
    }
  }

  lemma MarkDecreases(s: State, n: nat, cap: nat)
    requires CommitterEnabled(s, Mark(n))
    ensures CapMeasure(CommitterNext(s, Mark(n)), cap) < CapMeasure(s, cap)
  {
    var t := CommitterNext(s, Mark(n));
    MarkSets(s, n);
    PendingDecreases(FlagCost(cap), |Marking(t.committers)|, |Waking(s.committers)|, s.wake);
  }

  lemma WakeDecreases(s: State, n: nat, cap: nat)
    requires CommitterEnabled(s, Wake(n))
    ensures CapMeasure(CommitterNext(s, Wake(n)), cap) < CapMeasure(s, cap)
  {
    var t := CommitterNext(s, Wake(n));
    PhaseMoves(s.committers, n);
    PendingDecreases(FlagCost(cap), |Marking(t.committers)|, |Waking(t.committers)|, s.wake);
  }

  lemma LoopDecreases(s: State, l: LoopStep, cap: nat)
    requires LoopEnabled(s, l) && !s.shutdown && |s.subs| <= cap
    ensures CapMeasure(LoopNext(s, l), cap) < CapMeasure(s, cap)
  {
    if l.WorkerSnapshot? { DirtyFewerThanSubs(l.work, s.subs); }
  }

  lemma PassDecreases(s: State, p: PassStep, cap: nat)
    requires PassEnabled(s, p)
    ensures CapMeasure(PassNext(s, p), cap) < CapMeasure(s, cap)
  {
  }

  lemma CapStepDecreases(s: State, step: Step, cap: nat)
    requires Enabled(s, step) && EngineStep(step) && !s.shutdown && |s.subs| <= cap
    ensures CapMeasure(Next(s, step), cap) < CapMeasure(s, cap)
  {
    match step
    case ByCommitter(Mark(n)) => MarkDecreases(s, n, cap);
    case ByCommitter(Wake(n)) => WakeDecreases(s, n, cap);
    case ByLoop(l) => LoopDecreases(s, l, cap);
    case ByPass(p) => PassDecreases(s, p, cap);
  }

  lemma CapMonotone(s: State, a: nat, b: nat)
    requires a <= b
    ensures CapMeasure(s, a) <= CapMeasure(s, b)
  {
    MulMonotone(FlagCost(a) + 2, FlagCost(b) + 2, |Marking(s.committers)|);
    MulMonotone(FlagCost(a) + 1, FlagCost(b) + 1, |Waking(s.committers)|);
  }

  lemma MulMonotone(a: nat, b: nat, n: nat)
    requires a <= b
    ensures a * n <= b * n
  {
  }

  predicate Inserts(step: Step) { step.ByRegister? && step.g.RegInsert? }

  predicate Commits(step: Step) { step.ByCommitter? && step.c.Commit? }

  lemma KeysCount<V>(a: map<nat, V>, b: map<nat, V>, id: nat)
    requires a.Keys == b.Keys + {id}
    ensures |a| <= |b| + 1
  {
    SubsetSize(a.Keys - {id}, b.Keys);
    assert a.Keys == (a.Keys - {id}) + {id};
    assert |a| == |a.Keys| && |b| == |b.Keys|;
  }

  lemma InsertAddsOne(s: State, r: nat)
    requires RegEnabled(s, RegInsert(r))
    ensures |AfterInsert(s, r).subs| <= |s.subs| + 1
  {
    var id := s.regs[r].id;
    var subs := AfterInsert(s, r).subs;
    assert subs == s.subs[id := subs[id]];
    KeysCount(subs, s.subs, id);
  }

  /** Only a registration adds a subscription, one at a time. */
  lemma SubsGrow(s: State, step: Step)
    requires Enabled(s, step)
    ensures |Next(s, step).subs| <= |s.subs| + if Inserts(step) then 1 else 0
  {
    if Inserts(step) {
      InsertAddsOne(s, step.g.r);
    } else {
      OthersKeepKeys(s, step);
      FewerKeys(Next(s, step).subs, s.subs);
    }
  }

  lemma FewerKeys(a: Subs, b: Subs)
    requires a.Keys <= b.Keys
    ensures |a| <= |b|
  {
    SubsetSize(a.Keys, b.Keys);
    assert |a| == |a.Keys| && |b| == |b.Keys|;
  }

  lemma OthersKeepKeys(s: State, step: Step)
    requires Enabled(s, step) && !Inserts(step)
    ensures Next(s, step).subs.Keys <= s.subs.Keys
  {
    match step
    case ByCommitter(c) => CommitterKeepsKeys(s, c);
    case ByRegister(_) =>
    case ByClient(_) =>
    case ByLoop(l) => LoopKeepsKeys(s, l);
    case ByPass(_) =>
  }

  lemma CommitterKeepsKeys(s: State, c: CommitterStep)
    requires CommitterEnabled(s, c)
    ensures CommitterNext(s, c).subs.Keys == s.subs.Keys
  {
  }

  lemma LoopKeepsKeys(s: State, l: LoopStep)
    requires LoopEnabled(s, l)
    ensures LoopNext(s, l).subs.Keys <= s.subs.Keys
  {
  }

  lemma EngineStepDecreases(s: State, step: Step)
    requires Enabled(s, step) && EngineStep(step) && !s.shutdown
    ensures Measure(Next(s, step)) < Measure(s)
  {
    SubsGrow(s, step);
    CapStepDecreases(s, step, |s.subs|);
    CapMonotone(Next(s, step), |Next(s, step).subs|, |s.subs|);
  }

  /** While the engine is not at rest, one of its threads can move. */
  lemma NotStuck(s: State) returns (step: Step)
    requires WorkShape(s) && !Quiescent(s) && !s.worker.Exited?
    ensures Enabled(s, step) && EngineStep(step)
  {
    if n :| n in s.committers {
      step := ByCommitter(if s.committers[n].ToMark? then Mark(n) else Wake(n));
    } else {
      assert s.committers == map[];
      match s.worker
      case Waiting => step := ByLoop(WorkerClear);
      case Woken => step := ByLoop(WorkerCheck);
      case Ready =>
        var work := SomeListing(s.subs);
        step := ByLoop(WorkerSnapshot(work));
      case Pass(work, _, at) =>
        if work == [] {
          step := ByLoop(PassEnd);
        } else {
          step := ByPass(match at case AtClosed => ItemClosed case AtContains => ItemContains case AtFirst => ItemFirst
                                  case AtSecond(_) => ItemSecond case AtEmit(_) => ItemEmit);
        }
    }
  }

  /** The dirty subscriptions can always be listed. */
  lemma SomeListing(subs: Subs) returns (work: seq<WorkItem>)
    ensures ListsDirty(work, subs)
  {
    work := Listing(DirtyIds(subs), subs);
  }

  lemma Listing(ids: set<nat>, subs: Subs) returns (work: seq<WorkItem>)
    requires ids <= subs.Keys
    ensures forall i :: 0 <= i < |work| ==> work[i].id in ids && work[i] == ItemOf(work[i].id, subs[work[i].id])
    ensures forall id :: id in ids ==> exists i :: 0 <= i < |work| && work[i].id == id
    ensures forall i, j :: 0 <= i < j < |work| ==> work[i].id != work[j].id
    decreases ids
  {
    if ids == {} {
      work := [];
    } else {
      var id :| id in ids;
      var rest := Listing(ids - {id}, subs);
      work := rest + [ItemOf(id, subs[id])];
      forall x | x in ids ensures exists i :: 0 <= i < |work| && work[i].id == x {
        if x == id {
          assert work[|rest|].id == id;
        } else {
          assert x in ids - {id};
          var i :| 0 <= i < |rest| && rest[i].id == x;
          assert work[i].id == x;
        }
      }
    }
  }

  // ---- runs without new commits and registrations --------------------------------------------

  function EngineSteps(steps: seq<Step>): nat {
    if steps == [] then 0 else (if EngineStep(steps[0]) then 1 else 0) + EngineSteps(steps[1..])
  }

  ghost predicate Continues(run: seq<State>, steps: seq<Step>) {
    && |run| == |steps| + 1
    && forall i :: 0 <= i < |steps| ==> Enabled(run[i], steps[i]) && run[i + 1] == Next(run[i], steps[i])
  }

  ghost predicate Calm(steps: seq<Step>) {
    forall i :: 0 <= i < |steps| ==> EngineStep(steps[i]) || IdleStep(steps[i])
  }

  /** The step does not shut the engine down. */
  predicate Running(step: Step) { !(step.ByClient? && (step.e.SetShutdown? || step.e.ShutdownWake?)) }

  ghost predicate StaysRunning(steps: seq<Step>) { forall i :: 0 <= i < |steps| ==> Running(steps[i]) }

  function Insertions(steps: seq<Step>): nat {
    if steps == [] then 0 else (if Inserts(steps[0]) then 1 else 0) + Insertions(steps[1..])
  }

  function CommitCount(steps: seq<Step>): nat {
    if steps == [] then 0 else (if Commits(steps[0]) then 1 else 0) + CommitCount(steps[1..])
  }

  function CommitCost(cap: nat): nat { FlagCost(cap) + 2 }

  lemma CommitAdds(s: State, touched: set<Text>, cap: nat)
    ensures CapMeasure(CommitterNext(s, Commit(touched)), cap) <= CapMeasure(s, cap) + CommitCost(cap)
  {
    var t, n := CommitterNext(s, Commit(touched)), |s.commits|;
    if touched != {} {
      SubsetSize(Marking(t.committers), Marking(s.committers) + {n});
      SubsetSize(Waking(t.committers), Waking(s.committers));
      PendingGrows(FlagCost(cap), |Marking(t.committers)|, |Marking(s.committers)|, |Waking(t.committers)|, |Waking(s.committers)|, s.wake);
    }
  }

  lemma PendingGrows(flag: nat, marking': nat, marking: nat, waking': nat, waking: nat, wake: bool)
    requires marking' <= marking + 1 && waking' <= waking
    ensures Pending(flag, marking', waking', wake) <= Pending(flag, marking, waking, wake) + flag + 2
  {
    MulMonotone(marking', marking + 1, flag + 2);
    MulMonotone(waking', waking, flag + 1);
    Distribute(flag + 2, marking, 1);
  }

  /** What one step of any thread does to the work left. */
  lemma StepCost(s: State, step: Step, cap: nat)
    requires Enabled(s, step) && Running(step) && !s.shutdown && |s.subs| <= cap
    ensures !Next(s, step).shutdown
    ensures CapMeasure(Next(s, step), cap) + (if EngineStep(step) then 1 else 0)
            <= CapMeasure(s, cap) + if Commits(step) then CommitCost(cap) else 0
  {
    if EngineStep(step) {
      CapStepDecreases(s, step, cap);
      NoShutdown(s, step);
    } else if Commits(step) {
      CommitAdds(s, step.c.touched, cap);
    } else {
      OthersCostNothing(s, step, cap);
    }
  }

  /** Registrations and clients leave the engine's threads alone. */
  lemma OthersCostNothing(s: State, step: Step, cap: nat)
    requires Enabled(s, step) && Running(step) && !EngineStep(step) && !Commits(step)
    ensures Next(s, step).shutdown == s.shutdown && CapMeasure(Next(s, step), cap) == CapMeasure(s, cap)
  {
    var t := Next(s, step);
    assert t.committers == s.committers && t.worker == s.worker && t.wake == s.wake;
  }

  /** In every run that is not shut down, the engine's steps are bounded by the work there was at
      the start and a fixed cost for each commit. Registrations count only through the number of
      subscriptions a pass may meet. */
  lemma {:induction false} WorkIsBounded(run: seq<State>, steps: seq<Step>, cap: nat)
    requires Continues(run, steps) && StaysRunning(steps) && !run[0].shutdown
    requires |run[0].subs| + Insertions(steps) <= cap
    ensures EngineSteps(steps) + CapMeasure(run[|run| - 1], cap) <= CapMeasure(run[0], cap) + CommitCost(cap) * CommitCount(steps)
    ensures !run[|run| - 1].shutdown && |run[|run| - 1].subs| <= |run[0].subs| + Insertions(steps)
    decreases |steps|
  {
    if steps != [] {
      var step := steps[0];
      StepCost(run[0], step, cap);
      SubsGrow(run[0], step);
      assert run[1..][|run| - 2] == run[|run| - 1];
      WorkIsBounded(run[1..], steps[1..], cap);
      Distribute(CommitCost(cap), CommitCount(steps[1..]), if Commits(step) then 1 else 0);
    }
  }

  lemma Distribute(a: nat, b: nat, c: nat)
    ensures a * (b + c) == a * b + a * c
  {
  }

  /** Without commits the number of engine steps is bounded, however many registrations complete. */
  lemma RestDespiteRegistrations(run: seq<State>, steps: seq<Step>)
    requires Continues(run, steps) && StaysRunning(steps) && CommitCount(steps) == 0 && !run[0].shutdown
    ensures EngineSteps(steps) <= CapMeasure(run[0], |run[0].subs| + Insertions(steps))
  {
    WorkIsBounded(run, steps, |run[0].subs| + Insertions(steps));
  }

  lemma {:induction false} CalmCosts(steps: seq<Step>)
    requires Calm(steps)
    ensures Insertions(steps) == 0 && CommitCount(steps) == 0
    decreases |steps|
  {
    if steps != [] { CalmCosts(steps[1..]); }
  }

  /** The number of engine steps is bounded by the measure of the state they start from. */
  lemma RestIsReached(run: seq<State>, steps: seq<Step>)
    requires Continues(run, steps) && Calm(steps) && !run[0].shutdown
    ensures EngineSteps(steps) + Measure(run[|run| - 1]) <= Measure(run[0])
    ensures !run[|run| - 1].shutdown
  {
    CalmCosts(steps);
    WorkIsBounded(run, steps, |run[0].subs|);
    CapMonotone(run[|run| - 1], |run[|run| - 1].subs|, |run[0].subs|);
  }

  lemma NoShutdown(s: State, step: Step)
    requires Enabled(s, step) && EngineStep(step)
    ensures Next(s, step).shutdown == s.shutdown
  {
    match step
    case ByCommitter(c) => assert CommitterNext(s, c).shutdown == s.shutdown;
    case ByLoop(l) => assert LoopNext(s, l).shutdown == s.shutdown;
    case ByPass(p) => assert PassNext(s, p).shutdown == s.shutdown;
  }

  /** From every reachable state of a running engine, its threads alone bring it to rest, within
      the bound. */
  lemma {:induction false} ComesToRest(s: State) returns (run: seq<State>, steps: seq<Step>)
    requires Inv(s) && !s.shutdown
    ensures Continues(run, steps) && run[0] == s && Quiescent(run[|run| - 1])
    ensures (forall i :: 0 <= i < |steps| ==> EngineStep(steps[i])) && |steps| <= Measure(s)
    decreases Measure(s)
  {
    if Quiescent(s) {
      run, steps := [s], [];
    } else {
      var step := NextEngineStep(s);
      var run', steps' := ComesToRest(Next(s, step));
      run, steps := [s] + run', [step] + steps';
      StepFirst(s, step, run', steps');
    }
  }

  lemma StepFirst(s: State, step: Step, run: seq<State>, steps: seq<Step>)
    requires Continues(run, steps) && Enabled(s, step) && run[0] == Next(s, step)
    ensures Continues([s] + run, [step] + steps)
  {
    forall i | 0 < i <= |steps| ensures ([s] + run)[i] == run[i - 1] && ([step] + steps)[i] == steps[i - 1] { }
  }

  /** The next step of a running engine that is not at rest. */
  lemma NextEngineStep(s: State) returns (step: Step)
    requires Inv(s) && !s.shutdown && !Quiescent(s)
    ensures Enabled(s, step) && EngineStep(step)
    ensures Inv(Next(s, step)) && !Next(s, step).shutdown && Measure(Next(s, step)) < Measure(s)
  {
    step := NotStuck(s);
    EngineStepDecreases(s, step);
    NoShutdown(s, step);
    InvKept(s, step);
  }
}
