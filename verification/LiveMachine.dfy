/** The live-query engine as a step machine: committers, registrations, cancellations and the one
    worker interleave at their lock boundaries. */
module LiveMachine {
  import opened Lex
  import opened Json
  import opened Query
  import opened Live

  /** Two database versions a recompute read from; version `v` is the state after `v` commits. */
  datatype Read = Read(first: nat, second: nat)

  /** A committing thread after its commit: about to mark, or about to wake the worker. */
  datatype Phase = ToMark(touched: set<Text>) | ToWake

  /** A registering thread: nothing read yet, one read, snapshot computed, id allocated. */
  datatype Reg =
    | Begun(collection: Text, filter: Value, options: QueryOptions)
    | HalfRead(collection: Text, filter: Value, options: QueryOptions, first: nat)
    | Computed(collection: Text, filter: Value, options: QueryOptions, read: Read)
    | Numbered(collection: Text, filter: Value, options: QueryOptions, read: Read, id: nat)

  /** Progress on the head of the work list. */
  datatype ItemStep = AtClosed | AtContains | AtFirst | AtSecond(first: nat) | AtEmit(read: Read)

  datatype Worker = Waiting | Woken | Ready | Pass(work: seq<WorkItem>, dead: set<nat>, at: ItemStep) | Exited

  /** What the run has shown of one subscription: its initial snapshot, the version at which it
      was inserted, its emissions, the dispatches that marked it, and the number of emissions
      made when its cancellation completed. */
  datatype Record = Record(initial: Read, born: nat, emissions: seq<Read>, marks: nat, cancelledAt: Option<nat>)

  datatype State = State(
    subs: Subs, wake: bool, shutdown: bool, nextId: nat,
    commits: seq<set<Text>>, committers: map<nat, Phase>, regs: map<nat, Reg>,
    worker: Worker, closed: set<nat>, records: map<nat, Record>)

  datatype CommitterStep = Commit(touched: set<Text>) | Mark(n: nat) | Wake(n: nat)

  datatype RegStep =
    | RegBegin(r: nat, collection: Text, filter: Value, options: QueryOptions)
    | RegFirst(r: nat) | RegSecond(r: nat) | RegNumber(r: nat) | RegInsert(r: nat)

  datatype ClientStep = Cancel(id: nat) | CloseSink(id: nat) | SetShutdown | ShutdownWake

  datatype LoopStep = WorkerClear | WorkerCheck | WorkerSnapshot(work: seq<WorkItem>) | PassEnd

  datatype PassStep = ItemClosed | ItemContains | ItemFirst | ItemSecond | ItemEmit

  datatype Step =
    | ByCommitter(c: CommitterStep) | ByRegister(g: RegStep) | ByClient(e: ClientStep)
    | ByLoop(l: LoopStep) | ByPass(p: PassStep)

  predicate AtHead(w: Worker) { w.Pass? && w.work != [] }

  ghost predicate Enabled(s: State, step: Step) {
    match step
    case ByCommitter(c) => CommitterEnabled(s, c)
    case ByRegister(g) => RegEnabled(s, g)
    case ByClient(e) => ClientEnabled(s, e)
    case ByLoop(l) => LoopEnabled(s, l)
    case ByPass(p) => PassEnabled(s, p)
  }

  predicate CommitterEnabled(s: State, c: CommitterStep) {
    match c
    case Commit(_) => true
    case Mark(n) => n in s.committers && s.committers[n].ToMark?
    case Wake(n) => n in s.committers && s.committers[n].ToWake?
  }

  predicate RegEnabled(s: State, g: RegStep) {
    match g
    case RegBegin(r, _, _, _) => r !in s.regs
    case RegFirst(r) => r in s.regs && s.regs[r].Begun?
    case RegSecond(r) => r in s.regs && s.regs[r].HalfRead?
    case RegNumber(r) => r in s.regs && s.regs[r].Computed?
    case RegInsert(r) => r in s.regs && s.regs[r].Numbered?
  }

  predicate ClientEnabled(s: State, e: ClientStep) {
    match e
    case Cancel(id) => id in s.records
    case CloseSink(_) => true
    case SetShutdown => true
    case ShutdownWake => s.shutdown
  }

  ghost predicate LoopEnabled(s: State, l: LoopStep) {
    match l
    case WorkerClear => s.worker.Waiting? && (s.wake || s.shutdown)
    case WorkerCheck => s.worker.Woken?
    case WorkerSnapshot(work) => s.worker.Ready? && ListsDirty(work, s.subs)
    case PassEnd => s.worker.Pass? && s.worker.work == []
  }

  predicate PassEnabled(s: State, p: PassStep) {
    AtHead(s.worker) &&
    match p
    case ItemClosed => s.worker.at.AtClosed?
    case ItemContains => s.worker.at.AtContains?
    case ItemFirst => s.worker.at.AtFirst?
    case ItemSecond => s.worker.at.AtSecond?
    case ItemEmit => s.worker.at.AtEmit?
  }

  function CountMarks(records: map<nat, Record>, subs: Subs, touched: set<Text>): map<nat, Record> {
    map id | id in records ::
      if id in subs && subs[id].collection in touched then records[id].(marks := records[id].marks + 1) else records[id]
  }

  function AfterCancel(s: State, id: nat): State
    requires id in s.records
  {
    var rec := s.records[id];
    var at := if rec.cancelledAt.None? then Some(|rec.emissions|) else rec.cancelledAt;
    s.(subs := s.subs - {id}, records := s.records[id := rec.(cancelledAt := at)])
  }

  function AfterInsert(s: State, r: nat): State
    requires r in s.regs && s.regs[r].Numbered?
  {
    var reg := s.regs[r];
    s.(regs := s.regs - {r},
       subs := s.subs[reg.id := LiveSub(reg.collection, reg.filter, reg.options, false)],
       records := s.records[reg.id := Record(reg.read, |s.commits|, [], 0, None)])
  }

  /** The worker after a step on the head of its list. */
  function PassWorker(s: State, p: PassStep): Worker
    requires PassEnabled(s, p)
  {
    var work, dead, id := s.worker.work, s.worker.dead, s.worker.work[0].id;
    match p
    case ItemClosed => if id in s.closed then Pass(work[1..], dead + {id}, AtClosed) else Pass(work, dead, AtContains)
    case ItemContains => if id in s.subs then Pass(work, dead, AtFirst) else Pass(work[1..], dead, AtClosed)
    case ItemFirst => Pass(work, dead, AtSecond(|s.commits|))
    case ItemSecond => Pass(work, dead, AtEmit(Read(s.worker.at.first, |s.commits|)))
    case ItemEmit => Pass(work[1..], dead, AtClosed)
  }

  function AddEmission(records: map<nat, Record>, id: nat, read: Read): map<nat, Record> {
    if id in records then records[id := records[id].(emissions := records[id].emissions + [read])] else records
  }

  ghost function Next(s: State, step: Step): State
    requires Enabled(s, step)
  {
    match step
    case ByCommitter(c) => CommitterNext(s, c)
    case ByRegister(g) => RegNext(s, g)
    case ByClient(e) => ClientNext(s, e)
    case ByLoop(l) => LoopNext(s, l)
    case ByPass(p) => PassNext(s, p)
  }

  function CommitterNext(s: State, c: CommitterStep): State
    requires CommitterEnabled(s, c)
  {
    match c
    // A commit that touched nothing dispatches nothing.
    case Commit(touched) =>
      s.(commits := s.commits + [touched],
         committers := if touched == {} then s.committers else s.committers[|s.commits| := ToMark(touched)])
    case Mark(n) =>
      var touched := s.committers[n].touched;
      s.(subs := Marked(s.subs, touched),
         committers := if AnyMarked(s.subs, touched) then s.committers[n := ToWake] else s.committers - {n},
         records := CountMarks(s.records, s.subs, touched))
    case Wake(n) => s.(committers := s.committers - {n}, wake := true)
  }

  /** The four steps before the insertion only advance the registration itself. */
  function RegAdvance(g: Reg, now: nat, id: nat): Reg {
    match g
    case Begun(c, f, o) => HalfRead(c, f, o, now)
    case HalfRead(c, f, o, first) => Computed(c, f, o, Read(first, now))
    case Computed(c, f, o, read) => Numbered(c, f, o, read, id)
    case Numbered(_, _, _, _, _) => g
  }

  function RegNext(s: State, g: RegStep): State
    requires RegEnabled(s, g)
  {
    match g
    case RegBegin(r, c, f, o) => s.(regs := s.regs[r := Begun(c, f, o)])
    case RegFirst(r) => s.(regs := s.regs[r := RegAdvance(s.regs[r], |s.commits|, s.nextId)])
    case RegSecond(r) => s.(regs := s.regs[r := RegAdvance(s.regs[r], |s.commits|, s.nextId)])
    case RegNumber(r) => s.(regs := s.regs[r := RegAdvance(s.regs[r], |s.commits|, s.nextId)], nextId := s.nextId + 1)
    case RegInsert(r) => AfterInsert(s, r)
  }

  function ClientNext(s: State, e: ClientStep): State
    requires ClientEnabled(s, e)
  {
    match e
    case Cancel(id) => AfterCancel(s, id)
    case CloseSink(id) => s.(closed := s.closed + {id})
    case SetShutdown => s.(shutdown := true)
    case ShutdownWake => s.(wake := true)
  }

  ghost function LoopNext(s: State, l: LoopStep): State
    requires LoopEnabled(s, l)
  {
    match l
    case WorkerClear => s.(worker := Woken, wake := false)
    case WorkerCheck => s.(worker := if s.shutdown then Exited else Ready)
    case WorkerSnapshot(work) => s.(worker := Pass(work, {}, AtClosed), subs := AllClean(s.subs))
    case PassEnd => s.(subs := s.subs - s.worker.dead, worker := Waiting)
  }

  function PassNext(s: State, p: PassStep): State
    requires PassEnabled(s, p)
  {
    s.(worker := PassWorker(s, p),
       records := if p.ItemEmit? then AddEmission(s.records, s.worker.work[0].id, s.worker.at.read) else s.records)
  }

  const INITIAL := State(map[], false, false, 0, [], map[], map[], Waiting, {}, map[])

  // ---- basic shape -----------------------------------------------------------------------

  /** The id of a subscription still to be handled in the current pass. */
  ghost predicate InWork(w: Worker, id: nat) {
    w.Pass? && exists i :: 0 <= i < |w.work| && w.work[i].id == id
  }

  ghost predicate WorkShape(s: State) {
    s.worker.Pass? ==>
      && WorkListShape(s.worker.work, s.records.Keys)
      && s.worker.dead <= s.closed
      && (s.worker.work == [] ==> s.worker.at == AtClosed)
      && (s.worker.at.AtSecond? ==> s.worker.at.first <= |s.commits|)
      && (s.worker.at.AtEmit? ==> s.worker.at.read.first <= s.worker.at.read.second <= |s.commits|)
  }

  ghost predicate RegShape(s: State) {
    && (forall r :: r in s.regs ==>
          match s.regs[r]
          case Begun(_, _, _) => true
          case HalfRead(_, _, _, first) => first <= |s.commits|
          case Computed(_, _, _, read) => read.first <= read.second <= |s.commits|
          case Numbered(_, _, _, read, id) => read.first <= read.second <= |s.commits| && id < s.nextId && id !in s.records)
    && (forall q, r :: q in s.regs && r in s.regs && q != r && s.regs[q].Numbered? && s.regs[r].Numbered?
                       ==> s.regs[q].id != s.regs[r].id)
  }

  ghost predicate CommitterShape(s: State) {
    forall n :: n in s.committers ==> n < |s.commits| && (s.committers[n].ToMark? ==> s.committers[n].touched == s.commits[n])
  }

  ghost predicate RecordShape(s: State) {
    s.subs.Keys <= s.records.Keys && forall id :: id in s.records ==> id < s.nextId
  }

  ghost predicate Shape(s: State) {
    CommitterShape(s) && RecordShape(s) && WorkShape(s) && RegShape(s) && (s.worker.Exited? ==> s.shutdown)
  }

  lemma CommitterStepKeepsShape(s: State, c: CommitterStep)
    requires Shape(s) && CommitterEnabled(s, c)
    ensures Shape(CommitterNext(s, c))
  {
  }

  lemma RegStepKeepsShape(s: State, g: RegStep)
    requires Shape(s) && RegEnabled(s, g)
    ensures Shape(RegNext(s, g))
  {
    var t := RegNext(s, g);
    assert RecordShape(t);
    assert WorkShape(t);
  }

  lemma ClientStepKeepsShape(s: State, e: ClientStep)
    requires Shape(s) && ClientEnabled(s, e)
    ensures Shape(ClientNext(s, e))
  {
  }

  lemma LoopStepKeepsShape(s: State, l: LoopStep)
    requires Shape(s) && LoopEnabled(s, l)
    ensures Shape(LoopNext(s, l))
  {
    if l.WorkerSnapshot? {
      forall i | 0 <= i < |l.work| ensures l.work[i].id in s.records {
        assert l.work[i].id in DirtyIds(s.subs);
      }
    }
  }

  /** The work list as such: each subscription once, all of them known. */
  ghost predicate WorkListShape(work: seq<WorkItem>, known: set<nat>) {
    && (forall i, j :: 0 <= i < j < |work| ==> work[i].id != work[j].id)
    && (forall i :: 0 <= i < |work| ==> work[i].id in known)
  }

  lemma TailShape(work: seq<WorkItem>, known: set<nat>)
    requires WorkListShape(work, known) && work != []
    ensures WorkListShape(work[1..], known)
  {
  }

  lemma PassKeepsWorkShape(s: State, p: PassStep)
    requires WorkShape(s) && PassEnabled(s, p)
    ensures WorkShape(PassNext(s, p))
  {
    TailShape(s.worker.work, s.records.Keys);
    assert PassNext(s, p).records.Keys == s.records.Keys;
  }

  lemma PassStepKeepsShape(s: State, p: PassStep)
    requires Shape(s) && PassEnabled(s, p)
    ensures Shape(PassNext(s, p))
  {
    TailShape(s.worker.work, s.records.Keys);
    var t := PassNext(s, p);
    assert t.records.Keys == s.records.Keys;
    PassKeepsWorkShape(s, p);
  }

  lemma ShapeKept(s: State, step: Step)
    requires Shape(s) && Enabled(s, step)
    ensures Shape(Next(s, step))
  {
    match step
    case ByCommitter(c) => CommitterStepKeepsShape(s, c);
    case ByRegister(g) => RegStepKeepsShape(s, g);
    case ByClient(e) => ClientStepKeepsShape(s, e);
    case ByLoop(l) => LoopStepKeepsShape(s, l);
    case ByPass(p) => PassStepKeepsShape(s, p);
  }

  // ---- no lost wakeup --------------------------------------------------------------------

  ghost predicate SomeDirty(s: State) { exists id :: id in s.subs && s.subs[id].dirty }

  ghost predicate WakePending(s: State) { exists n :: n in s.committers && s.committers[n].ToWake? }

  /** A dirty subscription is never forgotten: the flag is set, or a committer has marked and
      will wake, or the worker is on its way to the snapshot. */
  ghost predicate NoLostWakeup(s: State) {
    SomeDirty(s) ==> s.wake || WakePending(s) || s.worker.Woken? || s.worker.Ready? || s.worker.Exited?
  }

  lemma MarkKeepsWakeup(s: State, n: nat)
    requires NoLostWakeup(s) && CommitterEnabled(s, Mark(n))
    ensures NoLostWakeup(CommitterNext(s, Mark(n)))
  {
    var t := CommitterNext(s, Mark(n));
    if AnyMarked(s.subs, s.committers[n].touched) {
      assert t.committers[n] == ToWake;
    } else if SomeDirty(t) {
      var id :| id in t.subs && t.subs[id].dirty;
      assert id in s.subs && s.subs[id].dirty;
      if WakePending(s) {
        var m :| m in s.committers && s.committers[m].ToWake?;
        assert m in t.committers && t.committers[m].ToWake?;
      }
    }
  }

  lemma CommitKeepsWakeup(s: State, touched: set<Text>)
    requires CommitterShape(s) && NoLostWakeup(s)
    ensures NoLostWakeup(CommitterNext(s, Commit(touched)))
  {
    var t := CommitterNext(s, Commit(touched));
    if WakePending(s) {
      var m :| m in s.committers && s.committers[m].ToWake?;
      assert m in t.committers && t.committers[m].ToWake?;
    }
  }

  /** Steps that dirty nothing, take no wake-up away and leave the worker alone. */
  lemma QuietKeepsWakeup(s: State, t: State)
    requires NoLostWakeup(s) && t.committers == s.committers && t.worker == s.worker && (s.wake ==> t.wake)
    requires forall id :: id in t.subs && t.subs[id].dirty ==> id in s.subs && s.subs[id].dirty
    ensures NoLostWakeup(t)
  {
  }

  lemma LoopKeepsWakeup(s: State, l: LoopStep)
    requires NoLostWakeup(s) && LoopEnabled(s, l)
    ensures NoLostWakeup(LoopNext(s, l))
  {
    var t := LoopNext(s, l);
    if SomeDirty(t) {
      var id :| id in t.subs && t.subs[id].dirty;
      assert id in s.subs && s.subs[id].dirty;
    }
  }

  lemma WakeKeepsWakeup(s: State, n: nat)
    requires CommitterEnabled(s, Wake(n))
    ensures NoLostWakeup(CommitterNext(s, Wake(n)))
  {
  }

  lemma RegKeepsWakeup(s: State, g: RegStep)
    requires NoLostWakeup(s) && RegEnabled(s, g)
    ensures NoLostWakeup(RegNext(s, g))
  {
    QuietKeepsWakeup(s, RegNext(s, g));
  }

  lemma ClientKeepsWakeup(s: State, e: ClientStep)
    requires NoLostWakeup(s) && ClientEnabled(s, e)
    ensures NoLostWakeup(ClientNext(s, e))
  {
    QuietKeepsWakeup(s, ClientNext(s, e));
  }

  lemma PassKeepsWakeup(s: State, p: PassStep)
    requires NoLostWakeup(s) && PassEnabled(s, p)
    ensures NoLostWakeup(PassNext(s, p))
  {
    var t := PassNext(s, p);
    assert t.subs == s.subs && t.committers == s.committers && t.wake == s.wake;
  }

  lemma NoLostWakeupKept(s: State, step: Step)
    requires Shape(s) && NoLostWakeup(s) && Enabled(s, step)
    ensures NoLostWakeup(Next(s, step))
  {
    match step
    case ByCommitter(Commit(touched)) => CommitKeepsWakeup(s, touched);
    case ByCommitter(Mark(n)) => MarkKeepsWakeup(s, n);
    case ByCommitter(Wake(n)) => WakeKeepsWakeup(s, n);
    case ByRegister(g) => RegKeepsWakeup(s, g);
    case ByClient(e) => ClientKeepsWakeup(s, e);
    case ByLoop(l) => LoopKeepsWakeup(s, l);
    case ByPass(p) => PassKeepsWakeup(s, p);
  }
}
