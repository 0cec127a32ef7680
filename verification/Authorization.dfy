/** What the authorizer's verdicts decide on the bridge, over every run. */
module Authorization {
  import opened Lex
  import opened Json
  import opened Wire
  import opened OrderedMap
  import opened Rpc
  import opened Bridge
  import H = Host

  // ---- what verdicts, tasks and answers have to do with each other ---------------------------

  predicate WasJudged(vs: seq<Judged>, e: Envelope) { exists x :: x in vs && x.env == e }

  /** The answer a verdict allows: any, or the failure it stands for. */
  predicate Fits(v: H.Verdict, env: Envelope, o: Outcome)
    requires env.Request()
  {
    match v
    case Allowed => true
    case Denied => o == Failure(T("forbidden"), T("authorizer denied ") + (if env.Query? then env.op else T("subscribe"))
                                                + T(" on ") + env.collection)
    case Threw(kind, message) => o == Failure(kind, message)
  }

  /** What runs was allowed; what waits was not judged. */
  predicate TaskJudged(t: H.Task, vs: seq<Judged>) {
    if t.phase.Running? then Judged(t.env, H.Allowed) in vs else !WasJudged(vs, t.env)
  }

  predicate AnswerJudged(a: Answer, vs: seq<Judged>) {
    a.env.Request() && exists x :: x in vs && x.env == a.env && Fits(x.verdict, a.env, a.outcome)
  }

  /** What was judged runs, if it was allowed, or is answered. */
  predicate Pursued(x: Judged, tasks: seq<H.Task>, answers: seq<Answer>) {
    x.env in AnswerEnvs(answers) || (x.verdict.Allowed? && x.env in TaskEnvs(tasks))
  }

  predicate JudgedOnce(vs: seq<Judged>) {
    forall m, n :: 0 <= m < n < |vs| ==> vs[m].env != vs[n].env
  }

  predicate InstalledBy(sid: Text, answers: seq<Answer>) {
    exists a :: a in answers && a.env.Subscribe? && a.env.subscriptionId == sid && a.outcome.Success?
  }

  predicate TasksJudged(tasks: seq<H.Task>, vs: seq<Judged>) { forall t :: t in tasks ==> TaskJudged(t, vs) }

  predicate AnswersJudged(answers: seq<Answer>, vs: seq<Judged>) { forall a :: a in answers ==> AnswerJudged(a, vs) }

  predicate AllPursued(vs: seq<Judged>, tasks: seq<H.Task>, answers: seq<Answer>) {
    forall x :: x in vs ==> Pursued(x, tasks, answers)
  }

  predicate AllInstalled(subs: set<Text>, answers: seq<Answer>) { forall sid :: sid in subs ==> InstalledBy(sid, answers) }

  predicate Decided(s: Sys) {
    && TasksJudged(s.port.tasks, s.verdicts) && AnswersJudged(s.answers, s.verdicts)
    && AllPursued(s.verdicts, s.port.tasks, s.answers) && JudgedOnce(s.verdicts)
    && AllInstalled(s.port.subs, s.answers)
  }

  // ---- a request is in one place ------------------------------------------------------------------

  /** A request is under way, waits or runs, or was answered, and only once. */
  lemma Once(s: Sys, e: Envelope)
    requires SentInOrder(s) && AllAccounted(s) && e.Request()
    ensures multiset(s.up)[e] + multiset(TaskEnvs(s.port.tasks))[e] + multiset(AnswerEnvs(s.answers))[e] <= 1
  {
    assert Accounted(s, e);
    OnceSent(s, e);
  }

  /** So a request that arrives was not judged before. */
  lemma ArrivesUnjudged(s: Sys)
    requires SentInOrder(s) && AllAccounted(s) && AllPursued(s.verdicts, s.port.tasks, s.answers)
    requires s.up != [] && s.up[0].Request()
    ensures !WasJudged(s.verdicts, s.up[0])
  {
    var e := s.up[0];
    Once(s, e);
    assert e in multiset(s.up);
    forall x | x in s.verdicts ensures x.env != e {
      assert Pursued(x, s.port.tasks, s.answers);
      assert x.env in multiset(TaskEnvs(s.port.tasks)) || x.env in multiset(AnswerEnvs(s.answers));
    }
  }

  /** And no second task serves it. */
  lemma OneTask(s: Sys, i: nat, j: nat)
    requires SentInOrder(s) && AllAccounted(s) && i < |s.port.tasks| && j < |s.port.tasks| && i != j
    ensures s.port.tasks[i].env != s.port.tasks[j].env
  {
    var q := TaskEnvs(s.port.tasks);
    Once(s, q[i]);
    if q[i] == q[j] {
      if i < j { CountedTwice(q, i, j); } else { CountedTwice(q, j, i); }
      assert false;
    }
  }

  // ---- every step keeps it --------------------------------------------------------------------------

  lemma EnvOfTask(tasks: seq<H.Task>, t: H.Task)
    requires t in tasks
    ensures t.env in TaskEnvs(tasks)
  {
    var i :| 0 <= i < |tasks| && tasks[i] == t;
    assert TaskEnvs(tasks)[i] == t.env;
  }

  /** The tasks but one, and where the envelopes of the others are. */
  lemma WithoutMeans(tasks: seq<H.Task>, i: nat)
    requires i < |tasks|
    ensures forall t :: t in H.Without(tasks, i) ==> t in tasks
    ensures forall e :: e in TaskEnvs(tasks) && e != tasks[i].env ==> e in TaskEnvs(H.Without(tasks, i))
  {
    forall e | e in TaskEnvs(tasks) && e != tasks[i].env ensures e in TaskEnvs(H.Without(tasks, i)) {
      var k :| 0 <= k < |tasks| && tasks[k].env == e;
      EnvOfTask(H.Without(tasks, i), H.Without(tasks, i)[if k < i then k else k - 1]);
    }
  }

  lemma StartDecided(s: Sys, tasks: seq<H.Task>)
    requires SentInOrder(s) && AllAccounted(s) && Decided(s) && s.up != [] && s.up[0].Request()
    requires tasks == s.port.tasks + [H.Task(s.up[0], H.Authorizing)]
    ensures TasksJudged(tasks, s.verdicts) && AllPursued(s.verdicts, tasks, s.answers)
  {
    ArrivesUnjudged(s);
    TaskStarted(s.port.tasks, s.up[0]);
    forall x | x in s.verdicts ensures Pursued(x, tasks, s.answers) { assert Pursued(x, s.port.tasks, s.answers); }
  }

  lemma ReceiveDecided(cfg: H.Config, s: Sys, session: Text)
    requires SentInOrder(s) && AllAccounted(s) && Decided(s) && s.up != []
    ensures Decided(Next(cfg, s, HostReceive(session)))
  {
    var s' := Next(cfg, s, HostReceive(session));
    ReceiveMeans(cfg, s, session);
    assert s'.verdicts == s.verdicts && s'.port.subs <= s.port.subs;
    if s'.port.tasks != s.port.tasks { StartDecided(s, s'.port.tasks); }
  }

  /** A new verdict leaves what the others say of tasks and answers. */
  lemma VerdictAdded(s: Sys, i: nat, v: H.Verdict, vs: seq<Judged>)
    requires SentInOrder(s) && AllAccounted(s) && Decided(s) && H.Waiting(s.port, i, H.Authorizing)
    requires vs == s.verdicts + [Judged(s.port.tasks[i].env, v)]
    ensures JudgedOnce(vs) && AnswersJudged(s.answers, vs)
    ensures forall j :: 0 <= j < |s.port.tasks| && j != i ==> TaskJudged(s.port.tasks[j], vs)
  {
    assert s.port.tasks[i] in s.port.tasks;
    assert !WasJudged(s.verdicts, s.port.tasks[i].env);
    forall n | 0 <= n < |s.verdicts| ensures vs[n].env != s.port.tasks[i].env { assert vs[n] in s.verdicts; }
    forall a | a in s.answers ensures AnswerJudged(a, vs) {
      assert AnswerJudged(a, s.verdicts);
      var x :| x in s.verdicts && x.env == a.env && Fits(x.verdict, a.env, a.outcome);
      assert x in vs;
    }
    forall j | 0 <= j < |s.port.tasks| && j != i ensures TaskJudged(s.port.tasks[j], vs) {
      OneTask(s, i, j);
      assert s.port.tasks[j] in s.port.tasks;
    }
  }

  lemma AllowDecided(cfg: H.Config, s: Sys, i: nat)
    requires SentInOrder(s) && AllAccounted(s) && Decided(s) && Enabled(s, HostVerdict(i, H.Allowed))
    ensures Decided(Next(cfg, s, HostVerdict(i, H.Allowed)))
  {
    var s' := Next(cfg, s, HostVerdict(i, H.Allowed));
    var e := s.port.tasks[i].env;
    VerdictAdded(s, i, H.Allowed, s'.verdicts);
    assert TaskEnvs(s'.port.tasks) == TaskEnvs(s.port.tasks) && TaskEnvs(s.port.tasks)[i] == e;
    assert s'.verdicts[|s.verdicts|] == Judged(e, H.Allowed);
    forall t | t in s'.port.tasks ensures TaskJudged(t, s'.verdicts) {
      var j :| 0 <= j < |s'.port.tasks| && s'.port.tasks[j] == t;
    }
    forall x | x in s'.verdicts ensures Pursued(x, s'.port.tasks, s'.answers) {
      if x in s.verdicts { assert Pursued(x, s.port.tasks, s.answers); }
    }
  }

  /** A task ends with an answer that a verdict on it allows. */
  lemma EndDecided(s: Sys, i: nat, o: Outcome, x: Judged, s': Sys)
    requires i < |s.port.tasks| && s.port.tasks[i].env.Request()
    requires AnswersJudged(s.answers, s'.verdicts) && JudgedOnce(s'.verdicts) && AllInstalled(s.port.subs, s.answers)
    requires forall t :: t in H.Without(s.port.tasks, i) ==> TaskJudged(t, s'.verdicts)
    requires forall y :: y in s'.verdicts ==> y == x || Pursued(y, s.port.tasks, s.answers)
    requires x in s'.verdicts && x.env == s.port.tasks[i].env && Fits(x.verdict, x.env, o)
    requires s'.port.tasks == H.Without(s.port.tasks, i) && s'.answers == s.answers + [Answer(x.env, o)]
    requires forall sid :: sid in s'.port.subs ==>
               sid in s.port.subs || (x.env.Subscribe? && x.env.subscriptionId == sid && o.Success?)
    ensures Decided(s')
  {
    WithoutMeans(s.port.tasks, i);
    assert AnswerEnvs(s'.answers) == AnswerEnvs(s.answers) + [x.env];
    assert Answer(x.env, o) in s'.answers;
    forall y | y in s'.verdicts ensures Pursued(y, s'.port.tasks, s'.answers) { }
    forall sid | sid in s'.port.subs ensures InstalledBy(sid, s'.answers) {
      if sid in s.port.subs { assert InstalledBy(sid, s.answers); }
    }
  }

  lemma RefuseMeans(cfg: H.Config, s: Sys, i: nat, v: H.Verdict) returns (o: Outcome)
    requires Enabled(s, HostVerdict(i, v)) && !v.Allowed?
    ensures var s', e := Next(cfg, s, HostVerdict(i, v)), s.port.tasks[i].env;
            && Fits(v, e, o) && s'.verdicts == s.verdicts + [Judged(e, v)] && s'.answers == s.answers + [Answer(e, o)]
            && s'.port.tasks == H.Without(s.port.tasks, i) && s'.port.subs == s.port.subs
  {
    o := H.VerdictAnswer(s.port.tasks[i].env, v).value;
  }

  lemma RefuseDecided(cfg: H.Config, s: Sys, i: nat, v: H.Verdict)
    requires SentInOrder(s) && AllAccounted(s) && Decided(s) && Enabled(s, HostVerdict(i, v)) && !v.Allowed?
    ensures Decided(Next(cfg, s, HostVerdict(i, v)))
  {
    var s', x := Next(cfg, s, HostVerdict(i, v)), Judged(s.port.tasks[i].env, v);
    var o := RefuseMeans(cfg, s, i, v);
    VerdictAdded(s, i, v, s'.verdicts);
    forall t | t in H.Without(s.port.tasks, i) ensures TaskJudged(t, s'.verdicts) {
      var k := OtherTask(s.port.tasks, i, t);
    }
    assert s'.verdicts[|s.verdicts|] == x;
    EndDecided(s, i, o, x, s');
  }

  lemma OtherTask(tasks: seq<H.Task>, i: nat, t: H.Task) returns (k: nat)
    requires i < |tasks| && t in H.Without(tasks, i)
    ensures k < |tasks| && k != i && tasks[k] == t
  {
    k :| 0 <= k < |tasks| - 1 && H.Without(tasks, i)[k] == t;
    k := if k < i then k else k + 1;
  }

  lemma FinishDecided(cfg: H.Config, s: Sys, i: nat, o: Outcome)
    requires Decided(s) && Enabled(s, HostFinish(i, o))
    ensures Decided(Next(cfg, s, HostFinish(i, o)))
  {
    assert s.port.tasks[i] in s.port.tasks;
    WithoutMeans(s.port.tasks, i);
    EndDecided(s, i, o, Judged(s.port.tasks[i].env, H.Allowed), Next(cfg, s, HostFinish(i, o)));
  }

  lemma DecidedKept(cfg: H.Config, s: Sys, step: Step)
    requires SentInOrder(s) && AllAccounted(s) && Decided(s) && Enabled(s, step)
    ensures Decided(Next(cfg, s, step))
  {
    match step
    case HostReceive(session) => ReceiveDecided(cfg, s, session);
    case HostVerdict(i, v) => if v.Allowed? { AllowDecided(cfg, s, i); } else { RefuseDecided(cfg, s, i, v); }
    case HostFinish(i, o) => FinishDecided(cfg, s, i, o);
    case _ => QuietDecided(cfg, s, step);
  }

  lemma QuietDecided(cfg: H.Config, s: Sys, step: Step)
    requires Decided(s) && Enabled(s, step) && !step.HostReceive? && !step.HostVerdict? && !step.HostFinish?
    ensures Decided(Next(cfg, s, step))
  {
    var s' := Next(cfg, s, step);
    assert s'.verdicts == s.verdicts && s'.port.tasks == s.port.tasks && s'.answers == s.answers && s'.port.subs <= s.port.subs;
  }

  lemma {:induction false} DecidedAlways(cfg: H.Config, run: seq<Sys>, steps: seq<Step>, i: nat)
    requires Behaviour(cfg, run, steps) && i < |run|
    ensures Decided(run[i])
  {
    if i != 0 {
      DecidedAlways(cfg, run, steps, i - 1);
      InvAlways(cfg, run, steps, i - 1);
      StepDecided(cfg, run[i - 1], steps[i - 1], run[i]);
    } else {
      assert Decided(Bridge.INITIAL);
    }
  }

  lemma StepDecided(cfg: H.Config, s: Sys, step: Step, s': Sys)
    requires Bridge.Inv(s) && Decided(s) && Enabled(s, step) && s' == Next(cfg, s, step)
    ensures Decided(s')
  {
    DecidedKept(cfg, s, step);
  }

  // ---- what follows -------------------------------------------------------------------------------

  /** In every run, only what the authorizer allowed is served: a request that runs or was answered
      with success was allowed, and so was the one behind every installed subscription. */
  lemma ServedOnlyIfAllowed(cfg: H.Config, run: seq<Sys>, steps: seq<Step>, i: nat)
    requires Behaviour(cfg, run, steps) && i < |run|
    ensures var s := run[i];
            && (forall t :: t in s.port.tasks && t.phase == H.Running ==> Judged(t.env, H.Allowed) in s.verdicts)
            && (forall a :: a in s.answers && a.outcome.Success? ==> Judged(a.env, H.Allowed) in s.verdicts)
            && (forall sid :: sid in s.port.subs ==>
                  exists x :: x in s.verdicts && x.verdict == H.Allowed && x.env.Subscribe? && x.env.subscriptionId == sid)
  {
    var s := run[i];
    DecidedAlways(cfg, run, steps, i);
    forall t | t in s.port.tasks && t.phase == H.Running ensures Judged(t.env, H.Allowed) in s.verdicts {
      assert TaskJudged(t, s.verdicts);
    }
    forall a | a in s.answers && a.outcome.Success? ensures Judged(a.env, H.Allowed) in s.verdicts { SuccessAllowed(s, a); }
    forall sid | sid in s.port.subs
      ensures exists x :: x in s.verdicts && x.verdict == H.Allowed && x.env.Subscribe? && x.env.subscriptionId == sid
    {
      assert InstalledBy(sid, s.answers);
      var a :| a in s.answers && a.env.Subscribe? && a.env.subscriptionId == sid && a.outcome.Success?;
      SuccessAllowed(s, a);
    }
  }

  lemma SuccessAllowed(s: Sys, a: Answer)
    requires AnswersJudged(s.answers, s.verdicts) && a in s.answers && a.outcome.Success?
    ensures Judged(a.env, H.Allowed) in s.verdicts
  {
    assert AnswerJudged(a, s.verdicts);
    var x :| x in s.verdicts && x.env == a.env && Fits(x.verdict, a.env, a.outcome);
    assert x == Judged(a.env, H.Allowed);
  }

  /** A request that was not allowed never runs, before or after, and is answered exactly once: as
      forbidden if it was denied, with the authorizer's own error if that threw. */
  lemma RefusedNeverRuns(cfg: H.Config, run: seq<Sys>, steps: seq<Step>, i: nat, e: Envelope, v: H.Verdict)
    requires Behaviour(cfg, run, steps) && i < |run| && Judged(e, v) in run[i].verdicts && v != H.Allowed
    ensures forall j, t :: 0 <= j < |run| && t in run[j].port.tasks && t.env == e ==> t.phase != H.Running
    ensures e.Request()
    ensures var message := T("authorizer denied ") + (if e.Query? then e.op else T("subscribe")) + T(" on ") + e.collection;
            var a := Answer(e, if v.Denied? then Failure(T("forbidden"), message) else Failure(v.kind, v.message));
            a in run[i].answers && forall b :: b in run[i].answers && b.env.Id() == e.Id() ==> b == a
  {
    forall j, t | 0 <= j < |run| && t in run[j].port.tasks && t.env == e ensures t.phase != H.Running {
      if t.phase.Running? {
        DecidedAlways(cfg, run, steps, j);
        assert TaskJudged(t, run[j].verdicts);
        var m := if i < j then j else i;
        VerdictsStay(cfg, run, steps, i, m);
        VerdictsStay(cfg, run, steps, j, m);
        DecidedAlways(cfg, run, steps, m);
        OneVerdict(run[m].verdicts, Judged(e, v), Judged(e, H.Allowed));
      }
    }
    DecidedAlways(cfg, run, steps, i);
    InvAlways(cfg, run, steps, i);
    RefusedIsAnswered(run[i], e, v);
  }

  lemma RefusedIsAnswered(s: Sys, e: Envelope, v: H.Verdict)
    requires SentInOrder(s) && AllAccounted(s) && Decided(s) && Judged(e, v) in s.verdicts && v != H.Allowed
    ensures e.Request()
    ensures var message := T("authorizer denied ") + (if e.Query? then e.op else T("subscribe")) + T(" on ") + e.collection;
            var a := Answer(e, if v.Denied? then Failure(T("forbidden"), message) else Failure(v.kind, v.message));
            a in s.answers && forall b :: b in s.answers && b.env.Id() == e.Id() ==> b == a
  {
    var n := AnswerFits(s, e, v);
    forall m | 0 <= m < |s.answers| && s.answers[m].env.Id() == e.Id() ensures m == n { OneAnswer(s, m, n); }
  }

  lemma AnswerFits(s: Sys, e: Envelope, v: H.Verdict) returns (n: nat)
    requires Decided(s) && Judged(e, v) in s.verdicts && v != H.Allowed
    ensures n < |s.answers| && s.answers[n].env == e && e.Request() && Fits(v, e, s.answers[n].outcome)
  {
    assert Pursued(Judged(e, v), s.port.tasks, s.answers);
    n :| 0 <= n < |s.answers| && AnswerEnvs(s.answers)[n] == e;
    assert AnswerJudged(s.answers[n], s.verdicts);
    var x :| x in s.verdicts && x.env == e && Fits(x.verdict, e, s.answers[n].outcome);
    OneVerdict(s.verdicts, x, Judged(e, v));
  }

  lemma OneAnswer(s: Sys, m: nat, n: nat)
    requires SentInOrder(s) && AllAccounted(s) && m < |s.answers| && n < |s.answers|
    requires s.answers[m].env.Id() == s.answers[n].env.Id()
    ensures m == n
  {
    if m < n { AnsweredOnce(s, m, n); }
    if n < m { AnsweredOnce(s, n, m); }
  }

  lemma OneVerdict(vs: seq<Judged>, x: Judged, y: Judged)
    requires JudgedOnce(vs) && x in vs && y in vs && x.env == y.env
    ensures x == y
  {
    var m :| 0 <= m < |vs| && vs[m] == x;
    var n :| 0 <= n < |vs| && vs[n] == y;
    assert m < n || n < m || m == n;
  }

  lemma {:induction false} VerdictsStay(cfg: H.Config, run: seq<Sys>, steps: seq<Step>, i: nat, j: nat)
    requires Behaviour(cfg, run, steps) && i <= j < |run|
    ensures run[i].verdicts <= run[j].verdicts
    decreases j
  {
    if i < j {
      VerdictsStay(cfg, run, steps, i, j - 1);
      VerdictsGrow(cfg, run[j - 1], steps[j - 1]);
    }
  }

  lemma VerdictsGrow(cfg: H.Config, s: Sys, step: Step)
    requires Enabled(s, step)
    ensures s.verdicts <= Next(cfg, s, step).verdicts
  {
  }

  // ---- installed subscriptions ------------------------------------------------------------------

  /** The step ends a subscribe request of this id with success. */
  predicate Installs(s: Sys, step: Step, sid: Text)
    requires Enabled(s, step)
  {
    && step.HostFinish? && step.o.Success?
    && s.port.tasks[step.i].env.Subscribe? && s.port.tasks[step.i].env.subscriptionId == sid
  }

  /** The step takes in its cancel, on an open port past its handshake, or drains the open port. */
  predicate Uninstalls(s: Sys, step: Step, sid: Text)
    requires Enabled(s, step)
  {
    !s.port.closed && (step.HostDrain? || (step.HostReceive? && s.port.helloSeen && s.up[0] == SubscribeCancel(sid)))
  }

  /** Step `j` installed the subscription and no step before `i` uninstalled it. */
  ghost predicate InstalledAt(cfg: H.Config, run: seq<Sys>, steps: seq<Step>, j: nat, i: nat, sid: Text)
    requires Behaviour(cfg, run, steps) && i < |run|
  {
    j < i && Installs(run[j], steps[j], sid) && forall k :: j < k < i ==> !Uninstalls(run[k], steps[k], sid)
  }

  /** In every run a subscription is installed exactly when a subscribe request for it succeeded
      and neither its cancel nor the drain came in since. */
  lemma {:induction false} InstalledExactlyWhen(cfg: H.Config, run: seq<Sys>, steps: seq<Step>, i: nat, sid: Text)
    requires Behaviour(cfg, run, steps) && i < |run|
    ensures sid in run[i].port.subs <==> exists j: nat :: InstalledAt(cfg, run, steps, j, i, sid)
  {
    if i != 0 {
      InstalledExactlyWhen(cfg, run, steps, i - 1, sid);
      InstalledStep(cfg, run[i - 1], steps[i - 1], sid);
      forall j: nat | j < i - 1
        ensures InstalledAt(cfg, run, steps, j, i, sid) <==>
                InstalledAt(cfg, run, steps, j, i - 1, sid) && !Uninstalls(run[i - 1], steps[i - 1], sid)
      {
        InstalledLonger(cfg, run, steps, j, i, sid);
      }
      assert InstalledAt(cfg, run, steps, i - 1, i, sid) <==> Installs(run[i - 1], steps[i - 1], sid);
      if !Uninstalls(run[i - 1], steps[i - 1], sid) {
        var n: nat := i - 1;
        if j: nat :| InstalledAt(cfg, run, steps, j, n, sid) { assert InstalledAt(cfg, run, steps, j, i, sid); }
      }
    }
  }

  lemma InstalledLonger(cfg: H.Config, run: seq<Sys>, steps: seq<Step>, j: nat, i: nat, sid: Text)
    requires Behaviour(cfg, run, steps) && j < i - 1 && i < |run|
    ensures InstalledAt(cfg, run, steps, j, i, sid) <==>
            InstalledAt(cfg, run, steps, j, i - 1, sid) && !Uninstalls(run[i - 1], steps[i - 1], sid)
  {
  }

  lemma InstalledStep(cfg: H.Config, s: Sys, step: Step, sid: Text)
    requires Enabled(s, step)
    ensures sid in Next(cfg, s, step).port.subs <==>
            Installs(s, step, sid) || (sid in s.port.subs && !Uninstalls(s, step, sid))
  {
  }

  // ---- a request from end to end ------------------------------------------------------------------

  /** The steps are possible one after the other and lead from `s` to `t`. */
  ghost predicate Leads(cfg: H.Config, s: Sys, steps: seq<Step>, t: Sys)
    decreases |steps|
  {
    if steps == [] then s == t else Enabled(s, steps[0]) && Leads(cfg, Next(cfg, s, steps[0]), steps[1..], t)
  }

  /** Renderer to host: the request is sent and becomes a task that waits for its verdict. */
  lemma RequestArrives(cfg: H.Config, s: Sys, env: Envelope, session: Text) returns (t: Sys)
    requires Sound(s.rpc) && Sends(s.rpc, env) && s.port.helloSeen && !s.port.closed && s.up == []
    ensures Leads(cfg, s, [RendererSend(env), HostReceive(session)], t)
    ensures t.port.tasks == s.port.tasks + [H.Task(Stamped(env, FreshId(s.rpc.nextId)), H.Authorizing)]
    ensures t.rpc == AfterSend(s.rpc, env) && t.up == [] && t.down == s.down && t.port == s.port.(tasks := t.port.tasks)
  {
    var s1 := Next(cfg, s, RendererSend(env));
    t := Next(cfg, s1, HostReceive(session));
    LeadsTwo(cfg, s, RendererSend(env), HostReceive(session));
  }

  lemma LeadsTwo(cfg: H.Config, s: Sys, a: Step, b: Step)
    requires Enabled(s, a) && Enabled(Next(cfg, s, a), b)
    ensures Leads(cfg, s, [a, b], Next(cfg, Next(cfg, s, a), b))
  {
    assert [a, b][1..] == [b] && [b][1..] == [];
  }

  lemma LeadsOne(cfg: H.Config, s: Sys, a: Step)
    requires Enabled(s, a)
    ensures Leads(cfg, s, [a], Next(cfg, s, a))
  {
    assert [a][1..] == [];
  }

  lemma {:induction false} LeadsOn(cfg: H.Config, s: Sys, p: seq<Step>, t: Sys, q: seq<Step>, u: Sys)
    requires Leads(cfg, s, p, t) && Leads(cfg, t, q, u)
    ensures Leads(cfg, s, p + q, u)
    decreases |p|
  {
    if p == [] {
      assert p + q == q;
    } else {
      assert (p + q)[1..] == p[1..] + q;
      LeadsOn(cfg, Next(cfg, s, p[0]), p[1..], t, q, u);
    }
  }

  /** The last task is served: its verdict, and the operation if that allows it. */
  lemma TaskIsServed(cfg: H.Config, s: Sys, i: nat, v: H.Verdict, o: Outcome) returns (t: Sys, out: Outcome)
    requires H.Waiting(s.port, i, H.Authorizing)
    ensures Leads(cfg, s, [HostVerdict(i, v)] + if v.Allowed? then [HostFinish(i, o)] else [], t)
    ensures if v.Allowed? then out == o else Fits(v, s.port.tasks[i].env, out)
    ensures t.rpc == s.rpc && t.up == s.up && t.down == s.down + [Response(s.port.tasks[i].env.id, out)]
    ensures v.Allowed? && s.port.tasks[i].env.Subscribe? && o.Success? ==> s.port.tasks[i].env.subscriptionId in t.port.subs
  {
    var s1 := Next(cfg, s, HostVerdict(i, v));
    if v.Allowed? {
      t, out := Next(cfg, s1, HostFinish(i, o)), o;
      LeadsTwo(cfg, s, HostVerdict(i, v), HostFinish(i, o));
      assert [HostVerdict(i, v)] + [HostFinish(i, o)] == [HostVerdict(i, v), HostFinish(i, o)];
    } else {
      t, out := s1, H.VerdictAnswer(s.port.tasks[i].env, v).value;
      LeadsOne(cfg, s, HostVerdict(i, v));
      assert [HostVerdict(i, v)] + [] == [HostVerdict(i, v)];
    }
  }

  /** The response meets the promise of its request. */
  lemma ResponseSettles(cfg: H.Config, s: Sys, r: RpcState, env: Envelope, out: Outcome)
    requires Sound(r) && Sends(r, env) && s.rpc == AfterSend(r, env) && s.down == [Response(FreshId(r.nextId), out)]
    ensures Enabled(s, RendererReceive)
    ensures Next(cfg, s, RendererReceive).rpc.settled == r.settled + [(r.promises, Resolved(out))]
  {
    SendSound(r, env);
    FreshIsNew(r);
    var pending, id := s.rpc.pending, FreshId(r.nextId);
    assert pending[|r.pending|] == (id, r.promises);
    assert IndexOf(pending, id) == |r.pending|;
  }

  /** On an idle bridge past its handshake, every request can be served from end to end: its
      promise resolves with the operation's own outcome if the authorizer allows it, and with the
      refusal otherwise; a subscription that succeeds is then installed. */
  lemma RequestIsServed(cfg: H.Config, s: Sys, env: Envelope, session: Text, v: H.Verdict, o: Outcome)
    returns (t: Sys, out: Outcome)
    requires Bridge.Inv(s) && Sends(s.rpc, env) && s.port.helloSeen && !s.port.closed && s.up == s.down == []
    ensures var i := |s.port.tasks|;
            Leads(cfg, s, [RendererSend(env), HostReceive(session)]
                          + ([HostVerdict(i, v)] + if v.Allowed? then [HostFinish(i, o)] else []) + [RendererReceive], t)
    ensures t.rpc.settled == s.rpc.settled + [(s.rpc.promises, Resolved(out))]
    ensures v.Allowed? ==> out == o
    ensures v.Denied? ==> out == Failure(T("forbidden"), T("authorizer denied ") + (if env.Query? then env.op else T("subscribe"))
                                                          + T(" on ") + env.collection)
    ensures v.Threw? ==> out == Failure(v.kind, v.message)
    ensures v.Allowed? && env.Subscribe? && o.Success? ==> env.subscriptionId in t.port.subs
  {
    var i := |s.port.tasks|;
    var s1 := RequestArrives(cfg, s, env, session);
    var s2;
    s2, out := TaskIsServed(cfg, s1, i, v, o);
    ResponseSettles(cfg, s2, s.rpc, env, out);
    t := Next(cfg, s2, RendererReceive);
    LeadsOne(cfg, s2, RendererReceive);
    var p, q := [RendererSend(env), HostReceive(session)], [HostVerdict(i, v)] + if v.Allowed? then [HostFinish(i, o)] else [];
    LeadsOn(cfg, s, p, s1, q, s2);
    LeadsOn(cfg, s, p + q, s2, [RendererReceive], t);
  }
}
