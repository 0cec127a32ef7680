/** What holds of every subscription in every reachable state of the live engine. */
module LiveProperties {
  import opened Lex
  import opened Json
  import opened Query
  import opened Live
  import opened LiveMachine

  // ---- per-subscription invariants ---------------------------------------------------------

  function LastSecond(rec: Record): nat {
    if rec.emissions == [] then rec.born else rec.emissions[|rec.emissions| - 1].second
  }

  /** The reads shown to one subscription never go back in time: each starts no earlier than the
      previous one ended. */
  ghost predicate ReadsOrdered(rec: Record, now: nat) {
    && rec.initial.first <= rec.initial.second <= rec.born <= now
    && (forall i :: 0 <= i < |rec.emissions| ==> rec.born <= rec.emissions[i].first <= rec.emissions[i].second <= now)
    && (forall i :: 0 <= i < |rec.emissions| - 1 ==> rec.emissions[i].second <= rec.emissions[i + 1].first)
  }

  /** The head of the list is `id`, and it has passed the check that it is still registered. */
  predicate Passed(w: Worker, id: nat) {
    AtHead(w) && w.work[0].id == id && (w.at.AtFirst? || w.at.AtSecond? || w.at.AtEmit?)
  }

  ghost predicate HeadReadOrdered(w: Worker, id: nat, rec: Record) {
    AtHead(w) && w.work[0].id == id ==>
      && (w.at.AtSecond? ==> LastSecond(rec) <= w.at.first)
      && (w.at.AtEmit? ==> LastSecond(rec) <= w.at.read.first)
  }

  ghost predicate Ordered(s: State, id: nat)
    requires id in s.records
  {
    ReadsOrdered(s.records[id], |s.commits|) && HeadReadOrdered(s.worker, id, s.records[id])
  }

  predicate Dirty(s: State, id: nat) { id in s.subs && s.subs[id].dirty }

  /** Emissions made, queued and owed never exceed the dispatches that marked the subscription. */
  ghost predicate Accounted(s: State, id: nat)
    requires id in s.records
  {
    |s.records[id].emissions| + (if InWork(s.worker, id) then 1 else 0) + (if Dirty(s, id) then 1 else 0) <= s.records[id].marks
  }

  /** Once a cancellation has completed, at most one more emission can happen: the one whose
      check was passed before. */
  ghost predicate CancelBounded(s: State, id: nat)
    requires id in s.records
  {
    s.records[id].cancelledAt.Some? ==>
      id !in s.subs && |s.records[id].emissions| + (if Passed(s.worker, id) then 1 else 0) <= s.records[id].cancelledAt.value + 1
  }

  /** The version from which on commits still have to reach the subscription. */
  function Since(rec: Record): nat {
    if rec.emissions == [] then rec.born else rec.emissions[|rec.emissions| - 1].first
  }

  /** The worker is going to read, or has begun to read, after commit `n`. */
  ghost predicate AwaitsRead(w: Worker, id: nat, n: nat) {
    w.Pass? && exists i :: 0 <= i < |w.work| && w.work[i].id == id && (i == 0 ==> ReadsAfter(w.at, n))
  }

  predicate ReadsAfter(at: ItemStep, n: nat) {
    match at
    case AtSecond(first) => n < first
    case AtEmit(read) => n < read.first
    case _ => true
  }

  ghost predicate Covered(s: State, id: nat, n: nat) {
    (n in s.committers && s.committers[n].ToMark?) || Dirty(s, id) || AwaitsRead(s.worker, id, n)
  }

  /** Every commit on its collection that the subscription has not seen is on its way. */
  ghost predicate OnItsWay(s: State, id: nat)
    requires id in s.records
  {
    id in s.subs && id !in s.closed ==>
      forall n :: Since(s.records[id]) <= n < |s.commits| && s.subs[id].collection in s.commits[n] ==> Covered(s, id, n)
  }

  ghost predicate Good(s: State, id: nat)
    requires id in s.records
  {
    Ordered(s, id) && Accounted(s, id) && CancelBounded(s, id) && OnItsWay(s, id)
  }

  // ---- committers -------------------------------------------------------------------------

  lemma CommitKeepsGood(s: State, touched: set<Text>, id: nat)
    requires Shape(s) && id in s.records && Good(s, id)
    ensures Good(CommitterNext(s, Commit(touched)), id)
  {
    var t := CommitterNext(s, Commit(touched));
    if id in t.subs && id !in t.closed {
      forall n | Since(t.records[id]) <= n < |t.commits| && t.subs[id].collection in t.commits[n]
        ensures Covered(t, id, n)
      {
        if n < |s.commits| { assert Covered(s, id, n); }
      }
    }
  }

  lemma MarkKeepsGood(s: State, m: nat, id: nat)
    requires Shape(s) && CommitterEnabled(s, Mark(m)) && id in s.records && Good(s, id)
    ensures Good(CommitterNext(s, Mark(m)), id)
  {
    var t := CommitterNext(s, Mark(m));
    if id in t.subs && id !in t.closed {
      forall n | Since(t.records[id]) <= n < |t.commits| && t.subs[id].collection in t.commits[n]
        ensures Covered(t, id, n)
      {
        assert Covered(s, id, n);
      }
    }
  }

  lemma WakeKeepsGood(s: State, m: nat, id: nat)
    requires Shape(s) && CommitterEnabled(s, Wake(m)) && id in s.records && Good(s, id)
    ensures Good(CommitterNext(s, Wake(m)), id)
  {
    var t := CommitterNext(s, Wake(m));
    if id in t.subs && id !in t.closed {
      forall n | Since(t.records[id]) <= n < |t.commits| && t.subs[id].collection in t.commits[n]
        ensures Covered(t, id, n)
      {
        assert Covered(s, id, n);
      }
    }
  }

  // ---- registrations and clients -------------------------------------------------------------

  /** What a subscription's invariants depend on. */
  lemma UnchangedKeepsGood(s: State, t: State, id: nat)
    requires id in s.records && id in t.records && s.records[id] == t.records[id] && Good(s, id)
    requires t.commits == s.commits && t.committers == s.committers && t.worker == s.worker && s.closed <= t.closed
    requires id in t.subs <==> id in s.subs
    requires id in t.subs ==> t.subs[id] == s.subs[id]
    ensures Good(t, id)
  {
    if id in t.subs && id !in t.closed {
      forall n | Since(t.records[id]) <= n < |t.commits| && t.subs[id].collection in t.commits[n]
        ensures Covered(t, id, n)
      {
        assert Covered(s, id, n);
      }
    }
  }

  lemma RegKeepsGood(s: State, g: RegStep, id: nat)
    requires Shape(s) && RegEnabled(s, g) && id in s.records && Good(s, id)
    ensures id in RegNext(s, g).records && Good(RegNext(s, g), id)
  {
    UnchangedKeepsGood(s, RegNext(s, g), id);
  }

  lemma NewRecordIsGood(s: State, r: nat)
    requires Shape(s) && RegEnabled(s, RegInsert(r))
    ensures Good(RegNext(s, RegInsert(r)), s.regs[r].id)
  {
  }

  lemma CancelKeepsGood(s: State, c: nat, id: nat)
    requires Shape(s) && ClientEnabled(s, Cancel(c)) && id in s.records && Good(s, id)
    ensures Good(ClientNext(s, Cancel(c)), id)
  {
    if id != c { UnchangedKeepsGood(s, ClientNext(s, Cancel(c)), id); }
  }

  lemma ClientKeepsGood(s: State, e: ClientStep, id: nat)
    requires Shape(s) && ClientEnabled(s, e) && id in s.records && Good(s, id)
    ensures id in ClientNext(s, e).records && Good(ClientNext(s, e), id)
  {
    if e.Cancel? { CancelKeepsGood(s, e.id, id); } else { UnchangedKeepsGood(s, ClientNext(s, e), id); }
  }

  // ---- the worker ---------------------------------------------------------------------------

  lemma SnapshotKeepsGood(s: State, work: seq<WorkItem>, id: nat)
    requires Shape(s) && LoopEnabled(s, WorkerSnapshot(work)) && id in s.records && Good(s, id)
    ensures Good(LoopNext(s, WorkerSnapshot(work)), id)
  {
    var t := LoopNext(s, WorkerSnapshot(work));
    if InWork(t.worker, id) {
      var i :| 0 <= i < |work| && work[i].id == id;
      assert id in DirtyIds(s.subs);
    }
    if id in t.subs && id !in t.closed {
      forall n | Since(t.records[id]) <= n < |t.commits| && t.subs[id].collection in t.commits[n]
        ensures Covered(t, id, n)
      {
        SnapshotCovers(s, work, id, n);
      }
    }
  }

  lemma SnapshotCovers(s: State, work: seq<WorkItem>, id: nat, n: nat)
    requires LoopEnabled(s, WorkerSnapshot(work)) && Covered(s, id, n)
    ensures Covered(LoopNext(s, WorkerSnapshot(work)), id, n)
  {
    if Dirty(s, id) {
      assert id in DirtyIds(s.subs);
      var i :| 0 <= i < |work| && work[i].id == id;
    }
  }

  lemma LoopKeepsGood(s: State, l: LoopStep, id: nat)
    requires Shape(s) && LoopEnabled(s, l) && id in s.records && Good(s, id)
    ensures id in LoopNext(s, l).records && Good(LoopNext(s, l), id)
  {
    var t := LoopNext(s, l);
    if l.WorkerSnapshot? {
      SnapshotKeepsGood(s, l.work, id);
    } else if id in t.subs && id !in t.closed {
      forall n | Since(t.records[id]) <= n < |t.commits| && t.subs[id].collection in t.commits[n]
        ensures Covered(t, id, n)
      {
        assert Covered(s, id, n);
      }
    }
  }

  /** The rest of the list keeps waiting when the head is dropped. */
  lemma TailStillWaits(w: Worker, id: nat, n: nat)
    requires AtHead(w) && w.work[0].id != id
    ensures InWork(w, id) <==> InWork(Pass(w.work[1..], w.dead, AtClosed), id)
    ensures AwaitsRead(w, id, n) ==> AwaitsRead(Pass(w.work[1..], w.dead, AtClosed), id, n)
  {
    var t := Pass(w.work[1..], w.dead, AtClosed);
    if InWork(w, id) {
      var i :| 0 <= i < |w.work| && w.work[i].id == id;
      assert t.work[i - 1].id == id;
    }
    if InWork(t, id) {
      var i :| 0 <= i < |t.work| && t.work[i].id == id;
      assert w.work[i + 1].id == id;
    }
    if AwaitsRead(w, id, n) {
      var i :| 0 <= i < |w.work| && w.work[i].id == id && (i == 0 ==> ReadsAfter(w.at, n));
      assert t.work[i - 1].id == id;
    }
  }

  lemma HeadIsOnce(work: seq<WorkItem>, known: set<nat>)
    requires WorkListShape(work, known) && work != []
    ensures !InWork(Pass(work[1..], {}, AtClosed), work[0].id)
  {
  }

  /** A step on the head leaves every other subscription as it was. */
  lemma OtherKeepsGood(s: State, p: PassStep, id: nat)
    requires Shape(s) && PassEnabled(s, p) && id in s.records && Good(s, id) && s.worker.work[0].id != id
    ensures id in PassNext(s, p).records && Good(PassNext(s, p), id)
  {
    var t := PassNext(s, p);
    var w, w' := s.worker, t.worker;
    assert t.records[id] == s.records[id];
    assert w' == Pass(w.work[1..], w'.dead, AtClosed) || w'.work == w.work;
    TailStillWaits(w, id, 0);
    assert InWork(w', id) <==> InWork(w, id);
    if id in t.subs && id !in t.closed {
      forall n | Since(t.records[id]) <= n < |t.commits| && t.subs[id].collection in t.commits[n]
        ensures Covered(t, id, n)
      {
        assert Covered(s, id, n);
        TailStillWaits(w, id, n);
      }
    }
    OtherNotPassed(s, p, id);
  }

  lemma OtherNotPassed(s: State, p: PassStep, id: nat)
    requires PassEnabled(s, p) && s.worker.work[0].id != id
    ensures !Passed(PassWorker(s, p), id)
    ensures AtHead(PassWorker(s, p)) && PassWorker(s, p).work[0].id == id ==> PassWorker(s, p).at == AtClosed
  {
  }

  lemma HeadLeavesGood(s: State, p: PassStep)
    requires Shape(s) && PassEnabled(s, p) && (p.ItemClosed? || p.ItemContains?)
    requires Good(s, s.worker.work[0].id)
    ensures Good(PassNext(s, p), s.worker.work[0].id)
  {
    var t := PassNext(s, p);
    var id := s.worker.work[0].id;
    HeadIsOnce(s.worker.work, s.records.Keys);
    if id in t.subs && id !in t.closed {
      forall n | Since(t.records[id]) <= n < |t.commits| && t.subs[id].collection in t.commits[n]
        ensures Covered(t, id, n)
      {
        assert t.worker.work[0].id == id;
      }
    }
  }

  lemma HeadReadsGood(s: State, p: PassStep)
    requires Shape(s) && PassEnabled(s, p) && (p.ItemFirst? || p.ItemSecond?)
    requires Good(s, s.worker.work[0].id)
    ensures Good(PassNext(s, p), s.worker.work[0].id)
  {
    var t := PassNext(s, p);
    var id := s.worker.work[0].id;
    assert t.worker.work[0].id == id;
    if id in t.subs && id !in t.closed {
      forall n | Since(t.records[id]) <= n < |t.commits| && t.subs[id].collection in t.commits[n]
        ensures Covered(t, id, n)
      {
        assert Covered(s, id, n);
        if AwaitsRead(s.worker, id, n) {
          var i :| 0 <= i < |s.worker.work| && s.worker.work[i].id == id && (i == 0 ==> ReadsAfter(s.worker.at, n));
        }
      }
    }
  }

  lemma HeadEmitsGood(s: State)
    requires Shape(s) && PassEnabled(s, ItemEmit) && Good(s, s.worker.work[0].id)
    ensures Good(PassNext(s, ItemEmit), s.worker.work[0].id)
  {
    var t := PassNext(s, ItemEmit);
    var id := s.worker.work[0].id;
    HeadIsOnce(s.worker.work, s.records.Keys);
    assert InWork(s.worker, id);
    if id in t.subs && id !in t.closed {
      forall n | Since(t.records[id]) <= n < |t.commits| && t.subs[id].collection in t.commits[n]
        ensures Covered(t, id, n)
      {
        assert Covered(s, id, n);
        if AwaitsRead(s.worker, id, n) {
          var i :| 0 <= i < |s.worker.work| && s.worker.work[i].id == id && (i == 0 ==> ReadsAfter(s.worker.at, n));
        }
      }
    }
  }

  lemma PassKeepsGood(s: State, p: PassStep, id: nat)
    requires Shape(s) && PassEnabled(s, p) && id in s.records && Good(s, id)
    ensures id in PassNext(s, p).records && Good(PassNext(s, p), id)
  {
    if s.worker.work[0].id != id {
      OtherKeepsGood(s, p, id);
    } else {
      match p
      case ItemClosed => HeadLeavesGood(s, p);
      case ItemContains => HeadLeavesGood(s, p);
      case ItemFirst => HeadReadsGood(s, p);
      case ItemSecond => HeadReadsGood(s, p);
      case ItemEmit => HeadEmitsGood(s);
    }
  }

  // ---- every reachable state ----------------------------------------------------------------

  ghost predicate Inv(s: State) {
    Shape(s) && NoLostWakeup(s) && forall id :: id in s.records ==> Good(s, id)
  }

  lemma StepKeepsGood(s: State, step: Step, id: nat)
    requires Shape(s) && Enabled(s, step) && id in s.records && Good(s, id)
    ensures id in Next(s, step).records && Good(Next(s, step), id)
  {
    match step
    case ByCommitter(Commit(touched)) => CommitKeepsGood(s, touched, id);
    case ByCommitter(Mark(n)) => MarkKeepsGood(s, n, id);
    case ByCommitter(Wake(n)) => WakeKeepsGood(s, n, id);
    case ByRegister(g) => RegKeepsGood(s, g, id);
    case ByClient(e) => ClientKeepsGood(s, e, id);
    case ByLoop(l) => LoopKeepsGood(s, l, id);
    case ByPass(p) => PassKeepsGood(s, p, id);
  }

  /** Records only appear by an insertion. */
  lemma RegRecords(s: State, g: RegStep)
    requires RegEnabled(s, g)
    ensures RegNext(s, g).records.Keys == s.records.Keys + if g.RegInsert? then {s.regs[g.r].id} else {}
  {
  }

  lemma ClientRecords(s: State, e: ClientStep)
    requires ClientEnabled(s, e)
    ensures ClientNext(s, e).records.Keys == s.records.Keys
  {
  }

  lemma NewRecords(s: State, step: Step)
    requires Enabled(s, step)
    ensures Next(s, step).records.Keys == s.records.Keys + Inserted(s, step)
  {
    match step
    case ByCommitter(c) => assert CommitterNext(s, c).records.Keys == s.records.Keys;
    case ByRegister(g) => RegRecords(s, g);
    case ByClient(e) => ClientRecords(s, e);
    case ByLoop(l) => assert LoopNext(s, l).records == s.records;
    case ByPass(p) => assert PassNext(s, p).records.Keys == s.records.Keys;
  }

  /** The subscription a step inserts, if any. */
  ghost function Inserted(s: State, step: Step): set<nat>
    requires Enabled(s, step)
  {
    if step.ByRegister? && step.g.RegInsert? then {s.regs[step.g.r].id} else {}
  }

  lemma InvKept(s: State, step: Step)
    requires Inv(s) && Enabled(s, step)
    ensures Inv(Next(s, step))
  {
    ShapeKept(s, step);
    NoLostWakeupKept(s, step);
    forall id | id in Next(s, step).records ensures Good(Next(s, step), id) {
      if id in s.records {
        StepKeepsGood(s, step, id);
      } else {
        NewRecords(s, step);
        NewRecordIsGood(s, step.g.r);
      }
    }
  }

  /** A run: states and the steps between them, from the fresh engine. */
  ghost predicate Behaviour(run: seq<State>, steps: seq<Step>) {
    && |run| == |steps| + 1 && run[0] == INITIAL
    && forall i :: 0 <= i < |steps| ==> Enabled(run[i], steps[i]) && run[i + 1] == Next(run[i], steps[i])
  }

  lemma {:induction false} InvAlways(run: seq<State>, steps: seq<Step>, i: nat)
    requires Behaviour(run, steps) && i < |run|
    ensures Inv(run[i])
  {
    if i != 0 {
      InvAlways(run, steps, i - 1);
      InvKept(run[i - 1], steps[i - 1]);
    }
  }

  // ---- the properties as a client sees them ---------------------------------------------------

  /** Nothing is dirty, queued or on its way from a committer to the worker. */
  predicate Quiescent(s: State) {
    s.worker.Waiting? && !s.wake && s.committers == map[]
  }

  /** At rest no subscription is dirty, and no commit since its last read (or, if it never
      emitted, since its insertion) touched its collection. */
  lemma QuiescentIsFresh(run: seq<State>, steps: seq<Step>, i: nat, id: nat, n: nat)
    requires Behaviour(run, steps) && i < |run| && Quiescent(run[i])
    requires id in run[i].subs && id !in run[i].closed
    ensures id in run[i].records && !run[i].subs[id].dirty
    ensures Since(run[i].records[id]) <= n < |run[i].commits| ==> run[i].subs[id].collection !in run[i].commits[n]
  {
    InvAlways(run, steps, i);
    var s := run[i];
    assert Good(s, id);
    assert !Covered(s, id, n);
  }

  /** Commits on the collection fell between the initial read and the insertion. */
  ghost predicate GapTouched(s: State, rec: Record, c: Text) {
    exists n :: rec.initial.first <= n < rec.born && n < |s.commits| && c in s.commits[n]
  }

  /** The last snapshot misses a commit on the subscription's collection. */
  ghost predicate Outdated(s: State, rec: Record, c: Text) {
    exists n :: rec.initial.first <= n < |s.commits| && c in s.commits[n]
  }

  /** At rest, a subscription that has never emitted is out of date exactly when a commit fell
      into the gap of its registration. */
  lemma OutdatedExactlyByGap(run: seq<State>, steps: seq<Step>, i: nat, id: nat)
    requires Behaviour(run, steps) && i < |run| && Quiescent(run[i])
    requires id in run[i].subs && id !in run[i].closed
    requires id in run[i].records && run[i].records[id].emissions == []
    ensures var c := run[i].subs[id].collection;
            Outdated(run[i], run[i].records[id], c) <==> GapTouched(run[i], run[i].records[id], c)
  {
    var s := run[i];
    var rec, c := s.records[id], s.subs[id].collection;
    if Outdated(s, rec, c) {
      var n :| rec.initial.first <= n < |s.commits| && c in s.commits[n];
      QuiescentIsFresh(run, steps, i, id, n);
    }
  }

  lemma Extend(run: seq<State>, steps: seq<Step>, step: Step) returns (run': seq<State>, steps': seq<Step>)
    requires Behaviour(run, steps) && Enabled(run[|run| - 1], step)
    ensures Behaviour(run', steps') && run'[|run'| - 1] == Next(run[|run| - 1], step)
  {
    run', steps' := run + [Next(run[|run| - 1], step)], steps + [step];
  }

  /** A registration has read the empty database, another thread has committed to `c`. */
  lemma ReadThenCommit(c: Text, f: Value, o: QueryOptions) returns (run: seq<State>, steps: seq<Step>)
    ensures Behaviour(run, steps)
    ensures run[|run| - 1] == INITIAL.(commits := [{c}], committers := map[0 := ToMark({c})],
                                       regs := map[0 := Computed(c, f, o, Read(0, 0))])
  {
    run, steps := Extend([INITIAL], [], ByRegister(RegBegin(0, c, f, o)));
    run, steps := Extend(run, steps, ByRegister(RegFirst(0)));
    run, steps := Extend(run, steps, ByRegister(RegSecond(0)));
    run, steps := Extend(run, steps, ByCommitter(Commit({c})));
    assert [] + [{c}] == [{c}];
  }

  /** It does happen: a registration reads, another thread commits and finds nobody to mark, and
      only then is the subscription inserted. */
  lemma GapIsMissed(c: Text, f: Value, o: QueryOptions) returns (run: seq<State>, steps: seq<Step>)
    ensures Behaviour(run, steps)
    ensures var s := run[|run| - 1];
            Quiescent(s) && 0 in s.subs && s.subs[0].collection == c && s.closed == {} && 0 in s.records
            && s.records[0].emissions == [] && GapTouched(s, s.records[0], c)
            && s.commits == [{c}] && s.subs[0] == LiveSub(c, f, o, false) && s.records[0].initial == Read(0, 0)
  {
    run, steps := ReadThenCommit(c, f, o);
    run, steps := Extend(run, steps, ByCommitter(Mark(0)));
    run, steps := Extend(run, steps, ByRegister(RegNumber(0)));
    run, steps := Extend(run, steps, ByRegister(RegInsert(0)));
    var s := run[|run| - 1];
    var rec := s.records[0];
    assert s.commits == [{c}] && rec.initial.first == 0 && rec.born == 1;
    assert rec.initial.first <= 0 < rec.born && c in s.commits[0];
  }

  /** Emissions are paid for by dispatches, in version order, and stop after a cancellation. */
  lemma EmissionsAccounted(run: seq<State>, steps: seq<Step>, i: nat, id: nat)
    requires Behaviour(run, steps) && i < |run| && id in run[i].records
    ensures var rec := run[i].records[id];
            && |rec.emissions| + (if InWork(run[i].worker, id) then 1 else 0) + (if Dirty(run[i], id) then 1 else 0) <= rec.marks
            && ReadsOrdered(rec, |run[i].commits|)
            && (rec.cancelledAt.Some? ==> id !in run[i].subs && |rec.emissions| <= rec.cancelledAt.value + 1)
  {
    InvAlways(run, steps, i);
    assert Good(run[i], id);
  }
}
