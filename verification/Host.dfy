/** The main process: one port, from its handshake to its drain. A request is served by an
    asynchronous task that waits for the authorizer and then for the operation itself. */
module Host {
  import opened Lex
  import opened Json
  import opened Wire
  import opened Canonical

  datatype Phase = Authorizing | Running

  datatype Task = Task(env: Envelope, phase: Phase)

  datatype PortState = PortState(helloSeen: bool, closed: bool, tasks: seq<Task>, subs: set<Text>)

  const FRESH_PORT := PortState(false, false, [], {})

  /** JSON parsing (`None` where it throws) and the host's own canonical descriptor. */
  datatype Config = Config(parse: Text -> Option<Js>, expectedDescriptor: Text)
  {
    predicate Accepts(descriptor: Text) {
      parse(descriptor).Some? && Canonicalize(parse(descriptor).value) == expectedDescriptor
    }
  }

  datatype Verdict = Allowed | Denied | Threw(kind: Text, message: Text)

  function OpName(env: Envelope): Text
    requires env.Request()
  {
    if env.Query? then env.op else T("subscribe")
  }

  function Forbidden(env: Envelope): Outcome
    requires env.Request()
  {
    Failure(T("forbidden"), T("authorizer denied ") + OpName(env) + T(" on ") + env.collection)
  }

  function HandshakeRefused(parsed: bool): Envelope {
    Response(T("hello"), Failure(T("schema"), if parsed then T("descriptor mismatch") else T("malformed descriptor")))
  }

  function AfterRoute(cfg: Config, s: PortState, env: Envelope): PortState {
    if s.closed then s
    else if env.Hello? then s.(helloSeen := s.helloSeen || cfg.Accepts(env.descriptor))
    else if !s.helloSeen then s
    else if env.Request() then s.(tasks := s.tasks + [Task(env, Authorizing)])
    else if env.SubscribeCancel? then s.(subs := s.subs - {env.subscriptionId})
    else s
  }

  predicate Refuses(cfg: Config, s: PortState, env: Envelope) {
    env.Hello? && !s.closed && !s.helloSeen && !cfg.Accepts(env.descriptor)
  }

  function RoutePosts(cfg: Config, s: PortState, env: Envelope, session: Text): seq<Envelope> {
    if s.closed || !env.Hello? || s.helloSeen then []
    else if cfg.Accepts(env.descriptor) then [HelloAck(env.clientId, session)]
    else [HandshakeRefused(cfg.parse(env.descriptor).Some?)]
  }

  function Without(tasks: seq<Task>, i: nat): seq<Task>
    requires i < |tasks|
  {
    tasks[..i] + tasks[i + 1..]
  }

  /** What a verdict answers at once, if anything. */
  function VerdictAnswer(env: Envelope, v: Verdict): Option<Outcome>
    requires env.Request()
  {
    match v
    case Allowed => None
    case Denied => Some(Forbidden(env))
    case Threw(k, m) => Some(Failure(k, m))
  }

  predicate Waiting(s: PortState, i: nat, phase: Phase) {
    i < |s.tasks| && s.tasks[i].phase == phase && s.tasks[i].env.Request()
  }

  function AfterVerdict(s: PortState, i: nat, v: Verdict): PortState
    requires Waiting(s, i, Authorizing)
  {
    if v.Allowed? then s.(tasks := s.tasks[i := Task(s.tasks[i].env, Running)]) else s.(tasks := Without(s.tasks, i))
  }

  /** The operation ends; a subscription that succeeds is installed, even on a drained port. */
  function AfterFinish(s: PortState, i: nat, o: Outcome): PortState
    requires Waiting(s, i, Running)
  {
    var env := s.tasks[i].env;
    s.(tasks := Without(s.tasks, i), subs := if env.Subscribe? && o.Success? then s.subs + {env.subscriptionId} else s.subs)
  }

  function EmitPosts(s: PortState, sid: Text, envelope: Text): seq<Envelope> {
    if s.closed || sid !in s.subs then [] else [SubscribeEmit(sid, envelope)]
  }

  function AfterDrain(s: PortState): PortState {
    if s.closed then s else s.(closed := true, subs := {})
  }

  class Port {
    const cfg: Config
    var helloSeen: bool
    var closed: bool
    var tasks: seq<Task>
    var subs: set<Text>
    var posted: seq<Envelope>
    var transportClosed: bool

    function State(): PortState
      reads this
    {
      PortState(helloSeen, closed, tasks, subs)
    }

    constructor (cfg: Config)
      ensures this.cfg == cfg && State() == FRESH_PORT && posted == [] && !transportClosed
    {
      this.cfg := cfg;
      helloSeen, closed, tasks, subs, posted, transportClosed := false, false, [], {}, [], false;
    }

    /** One incoming message. A refused handshake closes the transport. */
    method Route(env: Envelope, session: Text)
      modifies this
      ensures State() == AfterRoute(cfg, old(State()), env)
      ensures closed == old(closed)
      ensures helloSeen == (old(helloSeen) || (!closed && env.Hello? && cfg.Accepts(env.descriptor)))
      ensures tasks == if !closed && old(helloSeen) && env.Request() then old(tasks) + [Task(env, Authorizing)] else old(tasks)
      ensures subs == if !closed && old(helloSeen) && env.SubscribeCancel? then old(subs) - {env.subscriptionId} else old(subs)
      ensures posted == old(posted) + RoutePosts(cfg, old(State()), env, session)
      ensures posted == if !closed && !old(helloSeen) && env.Hello? then
                          old(posted) + [if cfg.Accepts(env.descriptor) then HelloAck(env.clientId, session)
                                         else Response(T("hello"), Failure(T("schema"),
                                           if cfg.parse(env.descriptor).Some? then T("descriptor mismatch")
                                           else T("malformed descriptor")))]
                        else old(posted)
      ensures transportClosed == (old(transportClosed) || Refuses(cfg, old(State()), env))
      ensures transportClosed <==> old(transportClosed) || (!closed && !old(helloSeen) && env.Hello? && !cfg.Accepts(env.descriptor))
    {
      if closed { return; }
      if env.Hello? {
        if helloSeen { return; }
        var parsed := cfg.parse(env.descriptor);
        if parsed.None? {
          posted := posted + [HandshakeRefused(false)];
          transportClosed := true;
        } else {
          var incoming := Canonicalize(parsed.value);
          if incoming == cfg.expectedDescriptor {
            helloSeen := true;
            posted := posted + [HelloAck(env.clientId, session)];
          } else {
            posted := posted + [HandshakeRefused(true)];
            transportClosed := true;
          }
        }
        return;
      }
      if !helloSeen { return; }
      match env {
        case Query(_, _, _, _, _) => tasks := tasks + [Task(env, Authorizing)];
        case Subscribe(_, _, _, _, _) => tasks := tasks + [Task(env, Authorizing)];
        case SubscribeCancel(sid) => subs := subs - {sid};
        case _ =>
      }
    }

    /** The authorizer settles for task `i`. */
    method Authorized(i: nat, v: Verdict)
      requires Waiting(State(), i, Authorizing)
      modifies this`tasks, this`posted
      ensures State() == AfterVerdict(old(State()), i, v)
      ensures var env := old(tasks[i]).env;
              match v
              case Allowed => posted == old(posted) && tasks == old(tasks)[i := Task(env, Running)]
              case Denied =>
                && tasks == old(tasks)[..i] + old(tasks)[i + 1..]
                && posted == old(posted) + [Response(env.id, Failure(T("forbidden"),
                     T("authorizer denied ") + (if env.Query? then env.op else T("subscribe")) + T(" on ") + env.collection))]
              case Threw(kind, message) =>
                && tasks == old(tasks)[..i] + old(tasks)[i + 1..]
                && posted == old(posted) + [Response(env.id, Failure(kind, message))]
      ensures var env := old(tasks[i]).env;
              posted == old(posted) + match VerdictAnswer(env, v) case None => [] case Some(o) => [Response(env.id, o)]
    {
      var env := tasks[i].env;
      match v {
        case Allowed => tasks := tasks[i := Task(env, Running)];
        case Denied =>
          posted := posted + [Response(env.id, Forbidden(env))];
          tasks := Without(tasks, i);
        case Threw(kind, message) =>
          posted := posted + [Response(env.id, Failure(kind, message))];
          tasks := Without(tasks, i);
      }
    }

    /** The operation of task `i` settles with `o`. */
    method Finished(i: nat, o: Outcome)
      requires Waiting(State(), i, Running)
      modifies this`tasks, this`subs, this`posted
      ensures State() == AfterFinish(old(State()), i, o)
      ensures posted == old(posted) + [Response(old(tasks[i]).env.id, o)]
      ensures tasks == old(tasks)[..i] + old(tasks)[i + 1..]
      ensures var env := old(tasks[i]).env;
              subs == if env.Subscribe? && o.Success? then old(subs) + {env.subscriptionId} else old(subs)
    {
      var env := tasks[i].env;
      tasks := Without(tasks, i);
      if env.Subscribe? && o.Success? { subs := subs + {env.subscriptionId}; }
      posted := posted + [Response(env.id, o)];
    }

    /** A live query emits on behalf of subscription `sid`. */
    method Emit(sid: Text, envelope: Text)
      modifies this`posted
      ensures posted == old(posted) + EmitPosts(State(), sid, envelope)
      ensures posted == if !closed && sid in subs then old(posted) + [SubscribeEmit(sid, envelope)] else old(posted)
    {
      if closed || sid !in subs { return; }
      posted := posted + [SubscribeEmit(sid, envelope)];
    }

    method Drain()
      modifies this`closed, this`subs
      ensures State() == AfterDrain(old(State()))
      ensures closed && subs == if old(closed) then old(subs) else {}
    {
      if closed { return; }
      closed := true;
      subs := {};
    }
  }
}
