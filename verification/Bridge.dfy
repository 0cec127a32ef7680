/** Renderer, host and the two channels between them, in every interleaving. */
module Bridge {
  import opened Lex
  import opened Json
  import opened Wire
  import opened OrderedMap
  import opened Rpc
  import opened Canonical
  import H = Host

  /** A request as it went out, the number in its id and the promise it made. */
  datatype Sent = Sent(env: Envelope, number: nat, promise: nat)

  datatype Answer = Answer(env: Envelope, outcome: Outcome)

  /** What the authorizer said to a request. */
  datatype Judged = Judged(env: Envelope, verdict: H.Verdict)

  /** `sent`, `answers`, `accepted` and `verdicts` are history: every request sent, every outcome
      the host reached for a request, the descriptor that passed the handshake, and every verdict. */
  datatype Sys = Sys(rpc: RpcState, up: seq<Envelope>, port: H.PortState, down: seq<Envelope>,
                     sent: seq<Sent>, answers: seq<Answer>, accepted: Option<Text>, verdicts: seq<Judged>)

  const INITIAL := Sys(Rpc.INITIAL, [], H.FRESH_PORT, [], [], [], None, [])

  datatype Step =
    | RendererSend(env: Envelope)
    | RendererHello(env: Envelope)
    | RendererCancel(env: Envelope)
    | OtherSend                       // another dispatcher of the process takes an id
    | RendererClose
    | RendererReceive
    | HostReceive(session: Text)
    | HostVerdict(i: nat, v: H.Verdict)
    | HostFinish(i: nat, o: Outcome)
    | HostEmit(sid: Text, envelope: Text)
    | HostDrain
    | LoseUp(i: nat)                  // a closing transport may drop what is under way
    | LoseDown(i: nat)

  predicate Enabled(s: Sys, step: Step) {
    match step
    case RendererHello(env) => env.Hello?
    case RendererCancel(env) => env.SubscribeCancel?
    case RendererReceive => s.down != []
    case HostReceive(_) => s.up != []
    case HostVerdict(i, _) => H.Waiting(s.port, i, H.Authorizing)
    case HostFinish(i, _) => H.Waiting(s.port, i, H.Running)
    case LoseUp(i) => i < |s.up|
    case LoseDown(i) => i < |s.down|
    case _ => true
  }

  function Dropped(q: seq<Envelope>, i: nat): seq<Envelope>
    requires i < |q|
  {
    q[..i] + q[i + 1..]
  }

  /** The host's answer: recorded and posted. */
  function Answered(s: Sys, port: H.PortState, env: Envelope, o: Outcome): Sys
    requires env.Request()
  {
    Sys(s.rpc, s.up, port, s.down + [Response(env.id, o)], s.sent, s.answers + [Answer(env, o)], s.accepted, s.verdicts)
  }

  function Next(cfg: H.Config, s: Sys, step: Step): Sys
    requires Enabled(s, step)
  {
    match step
    case RendererSend(env) =>
      if !Sends(s.rpc, env) then s else
        var stamped := Stamped(env, FreshId(s.rpc.nextId));
        Sys(AfterSend(s.rpc, env), s.up + [stamped], s.port, s.down,
            s.sent + [Sent(stamped, s.rpc.nextId, s.rpc.promises)], s.answers, s.accepted, s.verdicts)
    case RendererHello(env) => if s.rpc.closed then s else s.(rpc := AfterExpect(s.rpc), up := s.up + [env])
    case RendererCancel(env) => if s.rpc.closed then s else s.(up := s.up + [env])
    case OtherSend => s.(rpc := s.rpc.(nextId := s.rpc.nextId + 1))
    case RendererClose => s.(rpc := AfterClose(s.rpc))
    case RendererReceive => s.(rpc := AfterDispatch(s.rpc, s.down[0]), down := s.down[1..])
    case HostReceive(session) =>
      var env := s.up[0];
      var accepts := env.Hello? && !s.port.closed && !s.port.helloSeen && cfg.Accepts(env.descriptor);
      Sys(s.rpc, s.up[1..], H.AfterRoute(cfg, s.port, env), s.down + H.RoutePosts(cfg, s.port, env, session),
          s.sent, s.answers, if accepts then Some(env.descriptor) else s.accepted, s.verdicts)
    case HostVerdict(i, v) =>
      var env := s.port.tasks[i].env;
      var judged := s.(verdicts := s.verdicts + [Judged(env, v)]);
      (match H.VerdictAnswer(env, v)
       case None => judged.(port := H.AfterVerdict(s.port, i, v))
       case Some(o) => Answered(judged, H.AfterVerdict(s.port, i, v), env, o))
    case HostFinish(i, o) => Answered(s, H.AfterFinish(s.port, i, o), s.port.tasks[i].env, o)
    case HostEmit(sid, envelope) => s.(down := s.down + H.EmitPosts(s.port, sid, envelope))
    case HostDrain => s.(port := H.AfterDrain(s.port))
    case LoseUp(i) => s.(up := Dropped(s.up, i))
    case LoseDown(i) => s.(down := Dropped(s.down, i))
  }

  // ---- the handshake -------------------------------------------------------------------------

  /** The expected descriptor is the canonical text of the host's own schema. */
  ghost predicate ConfigFor(cfg: H.Config, schema: Js) {
    Parsed(schema) && cfg.expectedDescriptor == Canonicalize(schema)
    && forall t :: cfg.parse(t).Some? ==> Parsed(cfg.parse(t).value)
  }

  /** A port is past its handshake only through a descriptor equal, up to key order, to the
      host's, and nothing is served before that. */
  ghost predicate Shaken(cfg: H.Config, schema: Js, s: Sys) {
    && (s.port.helloSeen ==>
          && s.accepted.Some? && cfg.parse(s.accepted.value).Some?
          && Equal(cfg.parse(s.accepted.value).value, schema, true))
    && (s.port.tasks != [] || s.answers != [] || s.port.subs != {} ==> s.port.helloSeen)
  }

  lemma ShakenKept(cfg: H.Config, schema: Js, s: Sys, step: Step)
    requires ConfigFor(cfg, schema) && Shaken(cfg, schema, s) && Enabled(s, step)
    ensures Shaken(cfg, schema, Next(cfg, s, step))
  {
    match step
    case HostReceive(session) => ReceiveShaken(cfg, schema, s, session);
    case HostVerdict(i, v) => TaskShaken(cfg, schema, s, step);
    case HostFinish(i, o) => TaskShaken(cfg, schema, s, step);
    case _ =>
  }

  lemma TaskShaken(cfg: H.Config, schema: Js, s: Sys, step: Step)
    requires Shaken(cfg, schema, s) && Enabled(s, step) && (step.HostVerdict? || step.HostFinish?)
    ensures Shaken(cfg, schema, Next(cfg, s, step))
  {
    assert s.port.tasks != [];
  }

  lemma ReceiveShaken(cfg: H.Config, schema: Js, s: Sys, session: Text)
    requires ConfigFor(cfg, schema) && Shaken(cfg, schema, s) && s.up != []
    ensures Shaken(cfg, schema, Next(cfg, s, HostReceive(session)))
  {
    var env := s.up[0];
    if env.Hello? && cfg.Accepts(env.descriptor) {
      CanonicalDecides(cfg.parse(env.descriptor).value, schema);
    }
  }

  // ---- correlation ------------------------------------------------------------------------------

  /** Requests carry ids issued in order. */
  ghost predicate SentInOrder(s: Sys) {
    && (forall n :: 0 <= n < |s.sent| ==> SentOk(s.sent[n], s.rpc.nextId))
    && (forall m, n :: 0 <= m < n < |s.sent| ==> s.sent[m].number < s.sent[n].number)
  }

  predicate SentOk(x: Sent, next: nat) { x.env.Request() && x.env.Id() == FreshId(x.number) && x.number < next }

  function TaskEnvs(tasks: seq<H.Task>): seq<Envelope> { seq(|tasks|, i requires 0 <= i < |tasks| => tasks[i].env) }

  function AnswerEnvs(q: seq<Answer>): seq<Envelope> { seq(|q|, i requires 0 <= i < |q| => q[i].env) }

  function SentEnvs(q: seq<Sent>): seq<Envelope> { seq(|q|, i requires 0 <= i < |q| => q[i].env) }

  /** A request is under way, in the works or answered at most as often as it was sent. */
  predicate Accounted(s: Sys, e: Envelope) {
    multiset(s.up)[e] + multiset(TaskEnvs(s.port.tasks))[e] + multiset(AnswerEnvs(s.answers))[e] <= multiset(SentEnvs(s.sent))[e]
  }

  ghost predicate AllAccounted(s: Sys) {
    && (forall e: Envelope :: e.Request() ==> Accounted(s, e))
    && (forall i :: 0 <= i < |s.port.tasks| ==> s.port.tasks[i].env.Request())
    && (forall i :: 0 <= i < |s.answers| ==> s.answers[i].env.Request())
  }

  ghost predicate HasAnswer(s: Sys, id: Text, o: Outcome) {
    exists m :: 0 <= m < |s.answers| && s.answers[m].env.Id() == id && s.answers[m].outcome == o
  }

  /** A response on its way reports an answer, or refuses the handshake. */
  ghost predicate DownBacked(s: Sys) {
    forall e :: e in s.down && e.Response? ==> e.id == HELLO() || HasAnswer(s, e.id, e.outcome)
  }

  ghost predicate SentAs(s: Sys, id: Text, p: nat) {
    exists n :: 0 <= n < |s.sent| && s.sent[n].env.Id() == id && s.sent[n].promise == p
  }

  ghost predicate PendingSent(s: Sys) {
    forall i :: 0 <= i < |s.rpc.pending| ==> SentAs(s, s.rpc.pending[i].0, s.rpc.pending[i].1)
  }

  /** The promise belongs to a request that the host answered with that outcome. */
  ghost predicate Earned(s: Sys, p: nat, o: Outcome) {
    exists n :: 0 <= n < |s.sent| && s.sent[n].promise == p && Answer(s.sent[n].env, o) in s.answers
  }

  ghost predicate SettledEarned(s: Sys) {
    forall i :: 0 <= i < |s.rpc.settled| && s.rpc.settled[i].1.Resolved? ==>
      Earned(s, s.rpc.settled[i].0, s.rpc.settled[i].1.outcome)
  }

  ghost predicate Inv(s: Sys) {
    && Sound(s.rpc) && SentInOrder(s) && AllAccounted(s) && DownBacked(s) && PendingSent(s) && SettledEarned(s)
  }

  lemma RpcSound(cfg: H.Config, s: Sys, step: Step)
    requires Sound(s.rpc) && Enabled(s, step)
    ensures Sound(Next(cfg, s, step).rpc)
  {
    match step
    case RendererSend(env) => SendSound(s.rpc, env);
    case RendererHello(_) => ExpectSound(s.rpc);
    case RendererClose => CloseSound(s.rpc);
    case RendererReceive => DispatchSound(s.rpc, s.down[0]);
    case OtherSend => BumpSound(s.rpc);
    case _ =>
  }

  lemma BumpSound(r: RpcState)
    requires Sound(r)
    ensures Sound(r.(nextId := r.nextId + 1))
  {
    forall i | 0 <= i < |r.pending| ensures Issued(r.pending[i].0, r.nextId + 1) {
      var n: nat :| n < r.nextId && r.pending[i].0 == FreshId(n);
    }
  }

  lemma OrderKept(cfg: H.Config, s: Sys, step: Step)
    requires SentInOrder(s) && Enabled(s, step)
    ensures SentInOrder(Next(cfg, s, step))
  {
    var s' := Next(cfg, s, step);
    assert s'.rpc.nextId >= s.rpc.nextId;
    if step.RendererSend? && Sends(s.rpc, step.env) {
      assert forall n :: 0 <= n < |s.sent| ==> s'.sent[n] == s.sent[n];
    }
  }

  lemma Removed<X>(q: seq<X>, i: nat)
    requires i < |q|
    ensures multiset(q) == multiset(q[..i] + q[i + 1..]) + multiset{q[i]}
  {
    assert q == q[..i] + [q[i]] + q[i + 1..];
  }

  lemma TaskRemoved(tasks: seq<H.Task>, i: nat)
    requires i < |tasks|
    ensures multiset(TaskEnvs(tasks)) == multiset(TaskEnvs(H.Without(tasks, i))) + multiset{tasks[i].env}
  {
    var q := TaskEnvs(tasks);
    assert TaskEnvs(H.Without(tasks, i)) == q[..i] + q[i + 1..];
    Removed(q, i);
  }

  lemma AnswerAdded(q: seq<Answer>, a: Answer)
    ensures multiset(AnswerEnvs(q + [a])) == multiset(AnswerEnvs(q)) + multiset{a.env}
  {
    assert AnswerEnvs(q + [a]) == AnswerEnvs(q) + [a.env];
  }

  /** Answering moves one request from the tasks to the answers. */
  lemma AnswerAccounted(s: Sys, port: H.PortState, i: nat, o: Outcome)
    requires AllAccounted(s) && i < |s.port.tasks| && port.tasks == H.Without(s.port.tasks, i)
    ensures AllAccounted(Answered(s, port, s.port.tasks[i].env, o))
  {
    var env := s.port.tasks[i].env;
    var s' := Answered(s, port, env, o);
    TaskRemoved(s.port.tasks, i);
    AnswerAdded(s.answers, Answer(env, o));
    forall e: Envelope | e.Request() ensures Accounted(s', e) { assert Accounted(s, e); }
  }

  lemma SendAccounted(s: Sys, s': Sys, x: Sent)
    requires AllAccounted(s) && s'.up == s.up + [x.env] && s'.sent == s.sent + [x]
    requires s'.port == s.port && s'.answers == s.answers
    ensures AllAccounted(s')
  {
    assert SentEnvs(s'.sent) == SentEnvs(s.sent) + [x.env];
    forall e: Envelope | e.Request() ensures Accounted(s', e) { assert Accounted(s, e); }
  }

  /** The channel holds no request more often than before. */
  ghost predicate Quieter(q: seq<Envelope>, q': seq<Envelope>) {
    forall e: Envelope :: e.Request() ==> multiset(q')[e] <= multiset(q)[e]
  }

  lemma QuietAppend(q: seq<Envelope>, x: Envelope)
    requires !x.Request()
    ensures Quieter(q, q + [x])
  {
  }

  lemma QuietDrop(q: seq<Envelope>, i: nat)
    requires i < |q|
    ensures Quieter(q, Dropped(q, i))
  {
    Removed(q, i);
  }

  lemma NoiseAccounted(s: Sys, s': Sys)
    requires AllAccounted(s) && s'.sent == s.sent && s'.port.tasks == s.port.tasks && s'.answers == s.answers
    requires Quieter(s.up, s'.up)
    ensures AllAccounted(s')
  {
    forall e: Envelope | e.Request() ensures Accounted(s', e) { assert Accounted(s, e); }
  }

  /** A message starts at most one task: its own. */
  lemma RouteTasks(cfg: H.Config, p: H.PortState, env: Envelope)
    ensures var tasks := H.AfterRoute(cfg, p, env).tasks;
            tasks == p.tasks || (env.Request() && tasks == p.tasks + [H.Task(env, H.Authorizing)])
  {
  }

  /** What a received message changes of the account. */
  lemma ReceiveMeans(cfg: H.Config, s: Sys, session: Text)
    requires s.up != []
    ensures var s' := Next(cfg, s, HostReceive(session));
            && s'.up == s.up[1..] && s'.sent == s.sent && s'.answers == s.answers
            && (s'.port.tasks == s.port.tasks
                || (s.up[0].Request() && s'.port.tasks == s.port.tasks + [H.Task(s.up[0], H.Authorizing)]))
  {
    RouteTasks(cfg, s.port, s.up[0]);
  }

  lemma HeadOff(q: seq<Envelope>, q': seq<Envelope>)
    requires q != [] && q' == q[1..]
    ensures multiset(q) == multiset(q') + multiset{q[0]} && Quieter(q, q')
  {
    assert q == [q[0]] + q';
  }

  lemma TakenAccounted(s: Sys, s': Sys)
    requires AllAccounted(s) && s.up != [] && s'.up == s.up[1..] && s'.sent == s.sent && s'.answers == s.answers
    requires s'.port.tasks == s.port.tasks
             || (s.up[0].Request() && s'.port.tasks == s.port.tasks + [H.Task(s.up[0], H.Authorizing)])
    ensures AllAccounted(s')
  {
    HeadOff(s.up, s'.up);
    if s'.port.tasks == s.port.tasks {
      NoiseAccounted(s, s');
    } else {
      TaskStarted(s.port.tasks, s.up[0]);
      StartAccounted(s, s', s.up[0]);
    }
  }

  lemma ReceiveAccounted(cfg: H.Config, s: Sys, session: Text)
    requires AllAccounted(s) && s.up != []
    ensures AllAccounted(Next(cfg, s, HostReceive(session)))
  {
    ReceiveMeans(cfg, s, session);
    TakenAccounted(s, Next(cfg, s, HostReceive(session)));
  }

  lemma TaskStarted(tasks: seq<H.Task>, env: Envelope)
    ensures TaskEnvs(tasks + [H.Task(env, H.Authorizing)]) == TaskEnvs(tasks) + [env]
  {
  }

  /** A request that starts moves from the channel to the tasks. */
  lemma StartAccounted(s: Sys, s': Sys, env: Envelope)
    requires AllAccounted(s) && s'.sent == s.sent && s'.answers == s.answers && env.Request()
    requires multiset(s.up) == multiset(s'.up) + multiset{env}
    requires s'.port.tasks == s.port.tasks + [H.Task(env, H.Authorizing)]
    requires TaskEnvs(s'.port.tasks) == TaskEnvs(s.port.tasks) + [env]
    ensures AllAccounted(s')
  {
    forall e: Envelope | e.Request() ensures Accounted(s', e) { assert Accounted(s, e); }
  }

  lemma AccountedKept(cfg: H.Config, s: Sys, step: Step)
    requires AllAccounted(s) && Enabled(s, step)
    ensures AllAccounted(Next(cfg, s, step))
  {
    var s' := Next(cfg, s, step);
    match step
    case RendererSend(env) => if Sends(s.rpc, env) { SendAccounted(s, s', s'.sent[|s.sent|]); }
    case HostReceive(session) => ReceiveAccounted(cfg, s, session);
    case HostVerdict(i, v) => VerdictAccounted(cfg, s, i, v);
    case HostFinish(i, o) => AnswerAccounted(s, s'.port, i, o);
    case _ =>
      QuietStep(cfg, s, step);
      NoiseAccounted(s, s');
  }

  lemma QuietStep(cfg: H.Config, s: Sys, step: Step)
    requires Enabled(s, step)
    requires !step.RendererSend? && !step.HostReceive? && !step.HostVerdict? && !step.HostFinish?
    ensures Quieter(s.up, Next(cfg, s, step).up)
  {
    match step
    case RendererHello(env) => QuietAppend(s.up, env);
    case RendererCancel(env) => QuietAppend(s.up, env);
    case LoseUp(i) => QuietDrop(s.up, i);
    case _ =>
  }

  lemma VerdictAccounted(cfg: H.Config, s: Sys, i: nat, v: H.Verdict)
    requires AllAccounted(s) && Enabled(s, HostVerdict(i, v))
    ensures AllAccounted(Next(cfg, s, HostVerdict(i, v)))
  {
    var s' := Next(cfg, s, HostVerdict(i, v));
    if v.Allowed? {
      assert TaskEnvs(s'.port.tasks) == TaskEnvs(s.port.tasks);
      NoiseAccounted'(s, s');
    } else {
      var judged := s.(verdicts := s'.verdicts);
      NoiseAccounted'(s, judged);
      AnswerAccounted(judged, s'.port, i, H.VerdictAnswer(s.port.tasks[i].env, v).value);
    }
  }

  lemma NoiseAccounted'(s: Sys, s': Sys)
    requires AllAccounted(s) && s'.up == s.up && s'.sent == s.sent && s'.answers == s.answers
    requires TaskEnvs(s'.port.tasks) == TaskEnvs(s.port.tasks)
    ensures AllAccounted(s')
  {
    assert |TaskEnvs(s'.port.tasks)| == |TaskEnvs(s.port.tasks)|;
    forall i | 0 <= i < |s'.port.tasks| ensures s'.port.tasks[i].env.Request() {
      assert TaskEnvs(s'.port.tasks)[i] == TaskEnvs(s.port.tasks)[i];
    }
    forall e: Envelope | e.Request() ensures Accounted(s', e) { assert Accounted(s, e); }
  }

  lemma DownKept(cfg: H.Config, s: Sys, step: Step)
    requires DownBacked(s) && Enabled(s, step)
    ensures DownBacked(Next(cfg, s, step))
  {
    var s' := Next(cfg, s, step);
    assert s.answers <= s'.answers;
    forall e | e in s'.down && e.Response? ensures e.id == HELLO() || HasAnswer(s', e.id, e.outcome) {
      if e in s.down {
        if e.id != HELLO() {
          var m :| 0 <= m < |s.answers| && s.answers[m].env.Id() == e.id && s.answers[m].outcome == e.outcome;
          assert s'.answers[m] == s.answers[m];
        }
      } else {
        FreshResponse(cfg, s, step, e);
      }
    }
  }

  /** A response that a step adds. */
  lemma FreshResponse(cfg: H.Config, s: Sys, step: Step, e: Envelope)
    requires Enabled(s, step) && e in Next(cfg, s, step).down && e !in s.down && e.Response?
    ensures e.id == HELLO() || HasAnswer(Next(cfg, s, step), e.id, e.outcome)
  {
    var s' := Next(cfg, s, step);
    if |s'.answers| > |s.answers| {
      var a := s'.answers[|s.answers|];
      assert e == Response(a.env.Id(), a.outcome);
    }
  }

  lemma PendingKept(cfg: H.Config, s: Sys, step: Step)
    requires Sound(s.rpc) && PendingSent(s) && Enabled(s, step)
    ensures PendingSent(Next(cfg, s, step))
  {
    var s' := Next(cfg, s, step);
    forall i | 0 <= i < |s'.rpc.pending| ensures SentAs(s', s'.rpc.pending[i].0, s'.rpc.pending[i].1) {
      PendingOrigin(cfg, s, step, s'.rpc.pending[i]);
    }
  }

  lemma PendingOrigin(cfg: H.Config, s: Sys, step: Step, slot: (Text, nat))
    requires Sound(s.rpc) && PendingSent(s) && Enabled(s, step) && slot in Next(cfg, s, step).rpc.pending
    ensures SentAs(Next(cfg, s, step), slot.0, slot.1)
  {
    var s' := Next(cfg, s, step);
    if slot in s.rpc.pending {
      var n :| 0 <= n < |s.sent| && s.sent[n].env.Id() == slot.0 && s.sent[n].promise == slot.1;
      assert s'.sent[n] == s.sent[n];
    } else {
      SlotOrigin(cfg, s, step, slot);
      assert s'.sent[|s.sent|].env.Id() == slot.0 && s'.sent[|s.sent|].promise == slot.1;
    }
  }

  /** Slots only appear by sending. */
  lemma SlotOrigin(cfg: H.Config, s: Sys, step: Step, slot: (Text, nat))
    requires Sound(s.rpc) && Enabled(s, step) && slot in Next(cfg, s, step).rpc.pending
    ensures slot in s.rpc.pending ||
            (step.RendererSend? && Sends(s.rpc, step.env) && slot == (FreshId(s.rpc.nextId), s.rpc.promises))
  {
    match step
    case RendererSend(env) => if Sends(s.rpc, env) { SendSlot(s.rpc, env, slot); }
    case RendererReceive => DispatchSlot(s.rpc, s.down[0], slot);
    case _ =>
  }

  lemma SendSlot(r: RpcState, env: Envelope, slot: (Text, nat))
    requires Sound(r) && Sends(r, env) && slot in AfterSend(r, env).pending
    ensures slot in r.pending || slot == (FreshId(r.nextId), r.promises)
  {
    SendSound(r, env);
  }

  lemma DispatchSlot(r: RpcState, e: Envelope, slot: (Text, nat))
    requires slot in AfterDispatch(r, e).pending
    ensures slot in r.pending
  {
    DeleteShrinks(r.pending, e.Id());
  }

  lemma DeleteShrinks(m: OMap<nat>, k: Text)
    ensures forall slot :: slot in Delete(m, k) ==> slot in m
  {
  }

  // ---- settling ------------------------------------------------------------------------------------

  lemma IdDetermines(s: Sys, m: nat, n: nat)
    requires SentInOrder(s) && m < |s.sent| && n < |s.sent| && s.sent[m].env.Id() == s.sent[n].env.Id()
    ensures m == n
  {
    FreshIdInjective(s.sent[m].number, s.sent[n].number);
  }

  lemma AnsweredWasSent(s: Sys, m: nat) returns (n: nat)
    requires AllAccounted(s) && m < |s.answers|
    ensures n < |s.sent| && s.sent[n].env == s.answers[m].env
  {
    var e := s.answers[m].env;
    assert AnswerEnvs(s.answers)[m] == e && e in AnswerEnvs(s.answers);
    assert Accounted(s, e);
    assert e in multiset(SentEnvs(s.sent));
    n :| 0 <= n < |s.sent| && SentEnvs(s.sent)[n] == e;
  }

  /** A response that meets its promise earns it. */
  lemma MatchEarned(s: Sys, id: Text, p: nat, o: Outcome)
    requires SentInOrder(s) && AllAccounted(s) && SentAs(s, id, p) && HasAnswer(s, id, o)
    ensures Earned(s, p, o)
  {
    var n :| 0 <= n < |s.sent| && s.sent[n].env.Id() == id && s.sent[n].promise == p;
    var m :| 0 <= m < |s.answers| && s.answers[m].env.Id() == id && s.answers[m].outcome == o;
    var k := AnsweredWasSent(s, m);
    IdDetermines(s, k, n);
    assert s.answers[m] == Answer(s.sent[n].env, o);
  }

  /** A new resolution comes from a response that met its promise. */
  lemma NewResolution(cfg: H.Config, s: Sys, step: Step, x: (nat, Settlement))
    requires Enabled(s, step) && x in Next(cfg, s, step).rpc.settled && x !in s.rpc.settled && x.1.Resolved?
    ensures step.RendererReceive? && s.down != [] && s.down[0].Response? && Has(s.rpc.pending, s.down[0].id)
    ensures x == (Get(s.rpc.pending, s.down[0].id), Resolved(s.down[0].outcome))
  {
    match step
    case RendererReceive =>
    case RendererClose =>
    case _ =>
  }

  lemma EarnedStays(s: Sys, s': Sys, p: nat, o: Outcome)
    requires s.sent <= s'.sent && s.answers <= s'.answers && Earned(s, p, o)
    ensures Earned(s', p, o)
  {
    var n :| 0 <= n < |s.sent| && s.sent[n].promise == p && Answer(s.sent[n].env, o) in s.answers;
    assert s'.sent[n] == s.sent[n];
    var m :| 0 <= m < |s.answers| && s.answers[m] == Answer(s.sent[n].env, o);
    assert s'.answers[m] == s.answers[m];
  }

  lemma SettledKept(cfg: H.Config, s: Sys, step: Step)
    requires Inv(s) && Enabled(s, step)
    ensures SettledEarned(Next(cfg, s, step))
  {
    var s' := Next(cfg, s, step);
    forall i | 0 <= i < |s'.rpc.settled| && s'.rpc.settled[i].1.Resolved?
      ensures Earned(s', s'.rpc.settled[i].0, s'.rpc.settled[i].1.outcome)
    {
      ResolutionStays(cfg, s, step, s'.rpc.settled[i]);
    }
  }

  lemma ResolutionStays(cfg: H.Config, s: Sys, step: Step, x: (nat, Settlement))
    requires Inv(s) && Enabled(s, step) && x in Next(cfg, s, step).rpc.settled && x.1.Resolved?
    ensures Earned(Next(cfg, s, step), x.0, x.1.outcome)
  {
    ResolutionEarned(cfg, s, step, x);
    HistoryGrows(cfg, s, step);
    EarnedStays(s, Next(cfg, s, step), x.0, x.1.outcome);
  }

  lemma HistoryGrows(cfg: H.Config, s: Sys, step: Step)
    requires Enabled(s, step)
    ensures s.sent <= Next(cfg, s, step).sent && s.answers <= Next(cfg, s, step).answers
  {
  }

  lemma ResolutionEarned(cfg: H.Config, s: Sys, step: Step, x: (nat, Settlement))
    requires Inv(s) && Enabled(s, step) && x in Next(cfg, s, step).rpc.settled && x.1.Resolved?
    ensures Earned(s, x.0, x.1.outcome)
  {
    if x !in s.rpc.settled {
      NewResolution(cfg, s, step, x);
      var e := s.down[0];
      var i := IndexOf(s.rpc.pending, e.id);
      assert s.rpc.pending[i].0 == e.id;
      var n: nat :| n < s.rpc.nextId && e.id == FreshId(n);
      FreshIdInjective(n, n);
      assert e in s.down;
      MatchEarned(s, e.id, x.0, x.1.outcome);
    }
  }

  lemma InvKept(cfg: H.Config, s: Sys, step: Step)
    requires Inv(s) && Enabled(s, step)
    ensures Inv(Next(cfg, s, step))
  {
    RpcSound(cfg, s, step);
    OrderKept(cfg, s, step);
    AccountedKept(cfg, s, step);
    DownKept(cfg, s, step);
    PendingKept(cfg, s, step);
    SettledKept(cfg, s, step);
  }

  ghost predicate Behaviour(cfg: H.Config, run: seq<Sys>, steps: seq<Step>) {
    && |run| == |steps| + 1 && run[0] == INITIAL
    && forall i :: 0 <= i < |steps| ==> Enabled(run[i], steps[i]) && run[i + 1] == Next(cfg, run[i], steps[i])
  }

  lemma {:induction false} InvAlways(cfg: H.Config, run: seq<Sys>, steps: seq<Step>, i: nat)
    requires Behaviour(cfg, run, steps) && i < |run|
    ensures Inv(run[i])
  {
    if i != 0 {
      InvAlways(cfg, run, steps, i - 1);
      InvKept(cfg, run[i - 1], steps[i - 1]);
    }
  }

  /** In every run: a promise is settled at most once; one resolved with an outcome belongs to a
      request that the host answered with exactly that outcome; and no request is answered twice. */
  lemma Correlation(cfg: H.Config, run: seq<Sys>, steps: seq<Step>, i: nat)
    requires Behaviour(cfg, run, steps) && i < |run|
    ensures var r := run[i].rpc;
            && (forall a, b :: 0 <= a < b < |r.settled| ==> r.settled[a].0 != r.settled[b].0)
            && SettledEarned(run[i])
            && (r.closed ==> r.pending == [] && r.expecting == [])
    ensures forall a, b :: 0 <= a < b < |run[i].answers| ==> run[i].answers[a].env.Id() != run[i].answers[b].env.Id()
  {
    InvAlways(cfg, run, steps, i);
    var s := run[i];
    forall a, b | 0 <= a < b < |s.rpc.settled| ensures s.rpc.settled[a].0 != s.rpc.settled[b].0 {
      SettledOnce(s.rpc, a, b);
    }
    forall a, b | 0 <= a < b < |s.answers| ensures s.answers[a].env.Id() != s.answers[b].env.Id() {
      AnsweredOnce(s, a, b);
    }
  }

  lemma AnsweredOnce(s: Sys, a: nat, b: nat)
    requires SentInOrder(s) && AllAccounted(s) && a < b < |s.answers|
    ensures s.answers[a].env.Id() != s.answers[b].env.Id()
  {
    var m := AnsweredWasSent(s, a);
    var n := AnsweredWasSent(s, b);
    var q := AnswerEnvs(s.answers);
    assert Accounted(s, q[a]);
    OnceSent(s, q[a]);
    if q[a] == q[b] { CountedTwice(q, a, b); }
    if s.sent[m].env.Id() == s.sent[n].env.Id() { IdDetermines(s, m, n); }
  }

  lemma OnceSent(s: Sys, e: Envelope)
    requires SentInOrder(s)
    ensures multiset(SentEnvs(s.sent))[e] <= 1
  {
    var q := SentEnvs(s.sent);
    forall m, n | 0 <= m < n < |q| ensures q[m] != q[n] {
      if q[m] == q[n] { IdDetermines(s, m, n); }
    }
    DistinctOnce(q, e);
  }

  lemma {:induction false} DistinctOnce<X>(q: seq<X>, e: X)
    requires forall m, n :: 0 <= m < n < |q| ==> q[m] != q[n]
    ensures multiset(q)[e] <= 1
  {
    if q != [] {
      DistinctOnce(q[1..], e);
      assert q == [q[0]] + q[1..];
      if e in q[1..] {
        var n :| 0 <= n < |q| - 1 && q[1..][n] == e;
        assert q[n + 1] == e && q[0] != q[n + 1];
      }
    }
  }

  /** Once the renderer's end is closed, no later step of any run settles anything. */
  lemma {:induction false} ClosedIsFinal(cfg: H.Config, run: seq<Sys>, steps: seq<Step>, i: nat, j: nat)
    requires Behaviour(cfg, run, steps) && i <= j < |run| && run[i].rpc.closed
    ensures run[j].rpc.closed && run[j].rpc.settled == run[i].rpc.settled
    decreases j
  {
    if i < j {
      ClosedIsFinal(cfg, run, steps, i, j - 1);
      InvAlways(cfg, run, steps, j - 1);
      ClosedStep(cfg, run[j - 1], steps[j - 1]);
    }
  }

  lemma ClosedStep(cfg: H.Config, s: Sys, step: Step)
    requires Sound(s.rpc) && s.rpc.closed && Enabled(s, step)
    ensures Next(cfg, s, step).rpc.closed && Next(cfg, s, step).rpc.settled == s.rpc.settled
  {
    if step.RendererReceive? { NothingAfterClose(s.rpc, s.down[0]); }
  }

  lemma {:induction false} HandshakeFirst(cfg: H.Config, schema: Js, run: seq<Sys>, steps: seq<Step>, i: nat)
    requires ConfigFor(cfg, schema) && Behaviour(cfg, run, steps) && i < |run|
    ensures Shaken(cfg, schema, run[i])
  {
    if i != 0 {
      HandshakeFirst(cfg, schema, run, steps, i - 1);
      ShakenKept(cfg, schema, run[i - 1], steps[i - 1]);
    }
  }

  /** A port that is open and new to the handshake accepts a greeting exactly when its
      descriptor parses to a value equal to the host's schema. */
  lemma AcceptedExactlyWhen(cfg: H.Config, schema: Js, s: H.PortState, hello: Envelope)
    requires ConfigFor(cfg, schema) && hello.Hello? && !s.closed && !s.helloSeen
    ensures H.AfterRoute(cfg, s, hello).helloSeen <==>
            cfg.parse(hello.descriptor).Some? && Equal(cfg.parse(hello.descriptor).value, schema, true)
  {
    if cfg.parse(hello.descriptor).Some? { CanonicalDecides(cfg.parse(hello.descriptor).value, schema); }
  }

  /** Some text parses to `v`. */
  ghost predicate HasText(cfg: H.Config, v: Js) { exists t :: cfg.parse(t) == Some(v) }

  /** The host accepts only descriptors plainly equal to its schema if and only if the schema holds
      neither null nor an infinity: in place of a null one can always write a number beyond the
      doubles. */
  lemma OnlyEqualsAcceptedExactlyWhen(cfg: H.Config, schema: Js)
    requires ConfigFor(cfg, schema) && HasText(cfg, Swapped(schema))
    ensures (forall t :: cfg.Accepts(t) ==> Equal(cfg.parse(t).value, schema, false)) <==> NullFree(schema)
  {
    if NullFree(schema) {
      forall t | cfg.Accepts(t) ensures Equal(cfg.parse(t).value, schema, false) { AcceptsEquals(cfg, schema, t); }
    } else {
      SwappedPasses(schema);
      CanonicalDecides(Swapped(schema), schema);
      var t :| cfg.parse(t) == Some(Swapped(schema));
      assert cfg.Accepts(t);
    }
  }

  lemma AcceptsEquals(cfg: H.Config, schema: Js, t: Text)
    requires ConfigFor(cfg, schema) && NullFree(schema)
    ensures cfg.Accepts(t) <==> cfg.parse(t).Some? && Equal(cfg.parse(t).value, schema, false)
  {
    if cfg.parse(t).Some? {
      var v := cfg.parse(t).value;
      CanonicalDecides(v, schema);
      if Equal(v, schema, true) { NullFreeIsPlain(v, schema); }
      if Equal(v, schema, false) { PlainIsWire(v, schema); }
    }
  }

  /** For such a schema a port is past its handshake, in every run, only through a plainly equal
      descriptor. */
  lemma PlainHandshakeFirst(cfg: H.Config, schema: Js, run: seq<Sys>, steps: seq<Step>, i: nat)
    requires ConfigFor(cfg, schema) && NullFree(schema) && Behaviour(cfg, run, steps) && i < |run| && run[i].port.helloSeen
    ensures var s := run[i];
            s.accepted.Some? && cfg.parse(s.accepted.value).Some? && Equal(cfg.parse(s.accepted.value).value, schema, false)
  {
    HandshakeFirst(cfg, schema, run, steps, i);
    NullFreeIsPlain(cfg.parse(run[i].accepted.value).value, schema);
  }
}
