/** How the live engine ends: a shutdown stops the worker for good, and a pass forgets the
    subscriptions whose sink is closed. */
module LiveEndings {
  import opened Lex
  import opened Json
  import opened Live
  import opened LiveMachine
  import opened LiveProperties

  // ---- shutdown ---------------------------------------------------------------------------------

  /** What a subscription was sent so far; nothing before it exists. */
  function Emissions(s: State, id: nat): seq<Read> {
    if id in s.records then s.records[id].emissions else []
  }

  /** Later than `s`: no worker, and nobody was sent anything. */
  ghost predicate Silent(s: State, t: State) {
    t.worker.Exited? && forall id :: Emissions(t, id) == Emissions(s, id)
  }

  lemma CommitterSilent(s: State, c: CommitterStep)
    requires s.worker.Exited? && CommitterEnabled(s, c)
    ensures Silent(s, CommitterNext(s, c))
  {
    assert CommitterNext(s, c).records.Keys == s.records.Keys;
  }

  lemma RegisterSilent(s: State, g: RegStep)
    requires RegShape(s) && s.worker.Exited? && RegEnabled(s, g)
    ensures Silent(s, RegNext(s, g))
  {
  }

  lemma ClientSilent(s: State, e: ClientStep)
    requires s.worker.Exited? && ClientEnabled(s, e)
    ensures Silent(s, ClientNext(s, e))
  {
  }

  lemma ExitedStep(s: State, step: Step)
    requires Shape(s) && s.worker.Exited? && Enabled(s, step)
    ensures Silent(s, Next(s, step))
  {
    match step
    case ByCommitter(c) => CommitterSilent(s, c);
    case ByRegister(g) => RegisterSilent(s, g);
    case ByClient(e) => ClientSilent(s, e);
    case _ =>
  }

  lemma ShutdownStays(s: State, step: Step)
    requires Enabled(s, step) && s.shutdown
    ensures Next(s, step).shutdown
  {
    match step
    case ByCommitter(c) => assert CommitterNext(s, c).shutdown;
    case ByRegister(g) => assert RegNext(s, g).shutdown;
    case ByClient(e) => assert ClientNext(s, e).shutdown;
    case ByLoop(l) => assert LoopNext(s, l).shutdown;
    case ByPass(p) => assert PassNext(s, p).shutdown;
  }

  lemma ShapeAlways(run: seq<State>, steps: seq<Step>, i: nat)
    requires Behaviour(run, steps) && i < |run|
    ensures Shape(run[i])
  {
    InvAlways(run, steps, i);
  }

  lemma {:induction false} ShutdownHolds(run: seq<State>, steps: seq<Step>, k: nat, i: nat)
    requires Behaviour(run, steps) && k < i < |run| && steps[k] == ByClient(SetShutdown)
    ensures run[i].shutdown
  {
    if i != k + 1 {
      ShutdownHolds(run, steps, k, i - 1);
      ShutdownStays(run[i - 1], steps[i - 1]);
    }
  }

  /** In every run, a worker that makes its check after a shutdown exits: it never works again, and
      nobody is sent anything from then on. */
  lemma {:induction false} ShutdownStops(run: seq<State>, steps: seq<Step>, k: nat, i: nat, j: nat)
    requires Behaviour(run, steps) && k < i < j < |run|
    requires steps[k] == ByClient(SetShutdown) && steps[i] == ByLoop(WorkerCheck)
    ensures run[j].worker.Exited? && forall id :: Emissions(run[j], id) == Emissions(run[i], id)
    decreases j
  {
    if j == i + 1 {
      ShutdownHolds(run, steps, k, i);
    } else {
      ShutdownStops(run, steps, k, i, j - 1);
      ShapeAlways(run, steps, j - 1);
      ExitedStep(run[j - 1], steps[j - 1]);
    }
  }

  // ---- closed sinks -------------------------------------------------------------------------------

  /** The sink is closed and the pass will meet it, or has put it down as dead, or the subscription
      is gone already. */
  ghost predicate Doomed(s: State, id: nat) {
    && id in s.closed && id in s.records && s.worker.Pass?
    && (id !in s.subs || id in s.worker.dead
        || (InWork(s.worker, id) && (s.worker.work[0].id == id ==> s.worker.at == AtClosed)))
  }

  lemma DoomedPass(s: State, id: nat, p: PassStep)
    requires Shape(s) && Doomed(s, id) && PassEnabled(s, p)
    ensures Doomed(PassNext(s, p), id)
  {
    var work, t := s.worker.work, PassNext(s, p);
    if id in s.subs && id !in s.worker.dead && t.worker.work != work {
      if work[0].id != id {
        var i :| 0 <= i < |work| && work[i].id == id;
        assert work[1..][i - 1].id == id;
      }
    }
  }

  lemma DoomedRegister(s: State, id: nat, g: RegStep)
    requires Shape(s) && Doomed(s, id) && RegEnabled(s, g)
    ensures Doomed(RegNext(s, g), id)
  {
  }

  lemma DoomedCommitter(s: State, id: nat, c: CommitterStep)
    requires Doomed(s, id) && CommitterEnabled(s, c)
    ensures Doomed(CommitterNext(s, c), id)
  {
    assert CommitterNext(s, c).records.Keys == s.records.Keys && CommitterNext(s, c).subs.Keys == s.subs.Keys;
  }

  lemma DoomedClient(s: State, id: nat, e: ClientStep)
    requires Doomed(s, id) && ClientEnabled(s, e)
    ensures Doomed(ClientNext(s, e), id)
  {
  }

  lemma DoomedStart(s: State, id: nat, work: seq<WorkItem>)
    requires Shape(s) && LoopEnabled(s, WorkerSnapshot(work)) && Dirty(s, id) && id in s.closed
    ensures Doomed(LoopNext(s, WorkerSnapshot(work)), id)
  {
    assert id in DirtyIds(s.subs);
  }

  lemma DoomedStep(s: State, id: nat, step: Step)
    requires Shape(s) && Doomed(s, id) && Enabled(s, step) && step != ByLoop(PassEnd)
    ensures Doomed(Next(s, step), id)
  {
    match step
    case ByCommitter(c) => DoomedCommitter(s, id, c);
    case ByRegister(g) => DoomedRegister(s, id, g);
    case ByClient(e) => DoomedClient(s, id, e);
    case ByLoop(l) => assert false;
    case ByPass(p) => DoomedPass(s, id, p);
  }

  lemma {:induction false} DoomedUntilEnd(run: seq<State>, steps: seq<Step>, a: nat, b: nat, id: nat)
    requires Behaviour(run, steps) && a < b < |run|
    requires steps[a].ByLoop? && steps[a].l.WorkerSnapshot? && Dirty(run[a], id) && id in run[a].closed
    requires forall k :: a < k < b ==> steps[k] != ByLoop(PassEnd)
    ensures Doomed(run[b], id)
    decreases b
  {
    ShapeAlways(run, steps, b - 1);
    if b == a + 1 {
      DoomedStart(run[a], id, steps[a].l.work);
    } else {
      DoomedUntilEnd(run, steps, a, b - 1, id);
      DoomedStep(run[b - 1], id, steps[b - 1]);
    }
  }

  /** In every run, a dirty subscription whose sink was closed before a pass began is forgotten
      when the pass ends. */
  lemma ClosedIsForgotten(run: seq<State>, steps: seq<Step>, a: nat, b: nat, id: nat)
    requires Behaviour(run, steps) && a < b < |steps|
    requires steps[a].ByLoop? && steps[a].l.WorkerSnapshot? && Dirty(run[a], id) && id in run[a].closed
    requires steps[b] == ByLoop(PassEnd) && forall k :: a < k < b ==> steps[k] != ByLoop(PassEnd)
    ensures id !in run[b + 1].subs
  {
    DoomedUntilEnd(run, steps, a, b, id);
  }
}
