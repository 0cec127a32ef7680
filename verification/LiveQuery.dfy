/** The client's reactive handle: registration, emissions, errors and disposal in any order,
    subscribers, and the queue behind each async iterator. */
module LiveQueries {
  import opened Lex
  import opened Json

  /** A result set as it crossed the wire. */
  type Snap = Text

  datatype LiveEnvelope = Snapshot(rows: Snap) | RecomputeError(message: Text) | Malformed

  // ---- the iterator ----------------------------------------------------------------------------

  datatype IterResult = Value(rows: Snap) | Done | Threw(error: Text)

  /** `tickets` counts the calls of `next`; `results` are the promises they settled, by ticket;
      `from` is the first accepted snapshot the iterator is entitled to. */
  datatype Iter = Iter(queue: seq<Snap>, pending: Option<nat>, failWith: Option<Text>, ended: bool,
                       tickets: nat, results: seq<(nat, IterResult)>, pushed: seq<Snap>, from: nat)
  {
    function Settle(r: IterResult): Iter {
      if pending.None? then this else this.(pending := None, results := results + [(pending.value, r)])
    }

    function Push(rows: Snap): Iter {
      var it := this.(pushed := pushed + [rows]);
      if pending.Some? then it.Settle(Value(rows)) else it.(queue := queue + [rows])
    }

    function Fail(e: Text): Iter { this.(failWith := Some(e)).Settle(Threw(e)) }

    function End(): Iter { this.(ended := true).Settle(Done) }

    /** `next`: an error first, then the queue, then the end; otherwise it waits, taking the
        place of an earlier call that still waits. */
    function Next(): Iter {
      var it := this.(tickets := tickets + 1);
      if failWith.Some? then it.(results := results + [(tickets, Threw(failWith.value))])
      else if queue != [] then it.(queue := queue[1..], results := results + [(tickets, Value(queue[0]))])
      else if ended then it.(results := results + [(tickets, Done)])
      else it.(pending := Some(tickets))
    }
  }

  /** The snapshots handed out, in order. */
  function Delivered(results: seq<(nat, IterResult)>): seq<Snap> {
    if results == [] then [] else
      var last := results[|results| - 1].1;
      Delivered(results[..|results| - 1]) + (if last.Value? then [last.rows] else [])
  }

  /** Nothing pushed is lost, repeated or reordered; each call settles at most once, in order;
      a call only waits while there is nothing to tell it. */
  ghost predicate Coherent(it: Iter) {
    && Delivered(it.results) + it.queue == it.pushed
    && (it.pending.Some? ==> it.queue == [] && it.failWith.None? && !it.ended && it.pending.value + 1 == it.tickets)
    && InOrder(it.results, if it.pending.Some? then it.pending.value else it.tickets)
  }

  /** Settled calls come in the order they were made, all of them before call `limit`. */
  predicate InOrder(results: seq<(nat, IterResult)>, limit: nat) {
    && (forall i, j :: 0 <= i < j < |results| ==> results[i].0 < results[j].0)
    && (forall i :: 0 <= i < |results| ==> results[i].0 < limit)
  }

  lemma SettledNext(results: seq<(nat, IterResult)>, n: nat, r: IterResult)
    requires InOrder(results, n)
    ensures InOrder(results + [(n, r)], n + 1)
    ensures Delivered(results + [(n, r)]) == Delivered(results) + (if r.Value? then [r.rows] else [])
  {
    DeliveredAppend(results, (n, r));
  }

  lemma DeliveredAppend(results: seq<(nat, IterResult)>, x: (nat, IterResult))
    ensures Delivered(results + [x]) == Delivered(results) + (if x.1.Value? then [x.1.rows] else [])
  {
    assert (results + [x])[..|results|] == results;
  }

  lemma PushCoherent(it: Iter, rows: Snap)
    requires Coherent(it)
    ensures Coherent(it.Push(rows))
  {
    if it.pending.Some? { SettledNext(it.results, it.pending.value, Value(rows)); }
  }

  lemma NextCoherent(it: Iter)
    requires Coherent(it)
    ensures Coherent(it.Next())
  {
    if it.failWith.Some? {
      ToldNext(it, Threw(it.failWith.value));
    } else if it.queue != [] {
      TakenNext(it);
    } else if it.ended {
      ToldNext(it, Done);
    } else {
      WaitingNext(it);
    }
  }

  lemma ToldNext(it: Iter, r: IterResult)
    requires Coherent(it)
    requires if it.failWith.Some? then r == Threw(it.failWith.value) else it.queue == [] && it.ended && r == Done
    ensures Coherent(it.Next())
  {
    assert it.Next() == it.(tickets := it.tickets + 1, results := it.results + [(it.tickets, r)]);
    ToldCoherent(it, r);
  }

  lemma TakenNext(it: Iter)
    requires Coherent(it) && it.failWith.None? && it.queue != []
    ensures Coherent(it.Next())
  {
    TakenCoherent(it);
  }

  lemma WaitingNext(it: Iter)
    requires Coherent(it) && it.failWith.None? && it.queue == [] && !it.ended
    ensures Coherent(it.Next())
  {
    assert it.Next() == it.(tickets := it.tickets + 1, pending := Some(it.tickets));
    assert InOrder(it.results, it.tickets);
  }

  lemma ToldCoherent(it: Iter, r: IterResult)
    requires Coherent(it) && it.pending.None? && !r.Value?
    ensures Coherent(it.(tickets := it.tickets + 1, results := it.results + [(it.tickets, r)]))
  {
    SettledNext(it.results, it.tickets, r);
  }

  lemma TakenCoherent(it: Iter)
    requires Coherent(it) && it.queue != []
    ensures Coherent(it.(tickets := it.tickets + 1, queue := it.queue[1..], results := it.results + [(it.tickets, Value(it.queue[0]))]))
  {
    SettledNext(it.results, it.tickets, Value(it.queue[0]));
    TakeFirst(Delivered(it.results), it.queue);
  }

  lemma TakeFirst(p: seq<Snap>, q: seq<Snap>)
    requires q != []
    ensures p + [q[0]] + q[1..] == p + q
  {
  }

  lemma FailCoherent(it: Iter, e: Text)
    requires Coherent(it)
    ensures Coherent(it.Fail(e))
  {
    if it.pending.Some? { SettledNext(it.results, it.pending.value, Threw(e)); }
  }

  lemma EndedCoherent(it: Iter)
    requires Coherent(it)
    ensures Coherent(it.End())
  {
    if it.pending.Some? { SettledNext(it.results, it.pending.value, Done); }
  }

  // ---- the query ----------------------------------------------------------------------------------

  datatype Registration = Unsettled | Succeeded(id: Text) | Refused

  datatype Call = OnNext(rows: Snap) | OnError(error: Text)

  /** `cancels` lists the `liveCancel` calls, `calls` the subscriber callbacks, `accepted` the
      snapshots taken in; `froms[x]` is the first of them that subscriber `x` is entitled to. */
  datatype LqState = LqState(
    value: Snap, subs: seq<nat>, drivers: seq<nat>, iters: seq<Iter>, registration: Registration,
    native: bool, disposed: bool, errored: bool, received: bool,
    cancels: seq<Text>, calls: seq<(nat, Call)>, accepted: seq<Snap>, froms: seq<nat>)

  const INITIAL := LqState([], [], [], [], Unsettled, false, false, false, false, [], [], [], [])
  const CORRUPT := T("[corruption] malformed live envelope")

  function CallAll(subs: seq<nat>, call: Call): (q: seq<(nat, Call)>)
    ensures |q| == |subs|
  {
    seq(|subs|, i requires 0 <= i < |subs| => (subs[i], call))
  }

  /** `f` applied to the iterators whose drivers are registered. */
  function ForDrivers(iters: seq<Iter>, drivers: seq<nat>, f: Iter -> Iter): (q: seq<Iter>)
    ensures |q| == |iters|
  {
    seq(|iters|, i requires 0 <= i < |iters| => if i in drivers then f(iters[i]) else iters[i])
  }

  function Remove(q: seq<nat>, x: nat): seq<nat> {
    if q == [] then [] else (if q[0] == x then [] else [q[0]]) + Remove(q[1..], x)
  }

  /** The core is told to stop only if it was registered, under an id that is not empty. */
  function CancelOnDispose(s: LqState): seq<Text> {
    if s.native && s.registration.Succeeded? && s.registration.id != [] then [s.registration.id] else []
  }

  function AfterDispose(s: LqState): LqState {
    if s.disposed then s
    else s.(disposed := true, iters := ForDrivers(s.iters, s.drivers, (it: Iter) => it.End()), drivers := [], subs := [],
            cancels := s.cancels + CancelOnDispose(s))
  }

  function AfterFail(s: LqState, e: Text): LqState {
    if s.errored then s
    else AfterDispose(s.(errored := true, calls := s.calls + CallAll(s.subs, OnError(e)),
                         iters := ForDrivers(s.iters, s.drivers, (it: Iter) => it.Fail(e))))
  }

  function AfterSnapshot(s: LqState, rows: Snap): LqState {
    s.(value := rows, received := true, accepted := s.accepted + [rows], calls := s.calls + CallAll(s.subs, OnNext(rows)),
       iters := ForDrivers(s.iters, s.drivers, (it: Iter) => it.Push(rows)))
  }

  function AfterEnvelope(s: LqState, env: LiveEnvelope): LqState {
    if s.disposed || s.errored then s
    else match env
      case Snapshot(rows) => AfterSnapshot(s, rows)
      case RecomputeError(m) => AfterFail(s, m)
      case Malformed => AfterFail(s, CORRUPT)
  }

  function AfterRegistered(s: LqState, id: Text, initial: LiveEnvelope): LqState {
    var s' := s.(registration := Succeeded(id));
    if s.disposed then s'.(cancels := s.cancels + [id]) else AfterEnvelope(s'.(native := true), initial)
  }

  function AfterRefused(s: LqState, e: Text): LqState { AfterFail(s.(registration := Refused), e) }

  /** A late subscriber or iterator starts with the latest snapshot, if there is one. */
  function Start(s: LqState): nat { if s.received && s.accepted != [] then |s.accepted| - 1 else |s.accepted| }

  function AfterSubscribe(s: LqState): LqState {
    if s.disposed then s
    else s.(subs := s.subs + [|s.froms|], froms := s.froms + [Start(s)],
            calls := s.calls + (if s.received then [(|s.froms|, OnNext(s.value))] else []))
  }

  function FreshIter(s: LqState): Iter {
    var it := Iter([], None, None, false, 0, [], [], Start(s));
    if s.received then it.Push(s.value) else it
  }

  function AfterIterate(s: LqState): LqState {
    s.(iters := s.iters + [FreshIter(s)], drivers := s.drivers + [|s.iters|])
  }

  function AfterNext(s: LqState, i: nat): LqState
    requires i < |s.iters|
  {
    s.(iters := s.iters[i := s.iters[i].Next()])
  }

  /** Breaking out of the loop ends the whole query. */
  function AfterReturn(s: LqState, i: nat): LqState { AfterDispose(s.(drivers := Remove(s.drivers, i))) }

  class LiveQuery {
    var value: Snap
    var subs: seq<nat>
    var drivers: seq<nat>
    var iters: seq<Iter>
    var registration: Registration
    var native: bool
    var disposed: bool
    var errored: bool
    var received: bool
    var cancels: seq<Text>
    var calls: seq<(nat, Call)>
    var accepted: seq<Snap>
    var froms: seq<nat>

    function State(): LqState
      reads this
    {
      LqState(value, subs, drivers, iters, registration, native, disposed, errored, received, cancels, calls, accepted, froms)
    }

    ghost predicate Valid()
      reads this
    {
      Rising(drivers, |iters|)
    }

    constructor ()
      ensures Valid() && State() == INITIAL
    {
      value, subs, drivers, iters, registration, native := [], [], [], [], Unsettled, false;
      disposed, errored, received, cancels, calls, accepted, froms := false, false, false, [], [], [], [];
    }

    /** One callback for every subscriber. */
    method Call(call: Call)
      modifies this`calls
      ensures calls == old(calls) + CallAll(subs, call)
    {
      for k := 0 to |subs|
        invariant calls == old(calls) + CallAll(subs, call)[..k]
      {
        calls := calls + [(subs[k], call)];
      }
      assert CallAll(subs, call)[..|subs|] == CallAll(subs, call);
    }

    /** One update of every registered iterator. */
    method Drive(f: Iter -> Iter)
      requires Valid()
      modifies this`iters
      ensures iters == ForDrivers(old(iters), drivers, f)
    {
      for k := 0 to |drivers|
        invariant |iters| == |old(iters)|
        invariant iters == ForDrivers(old(iters), drivers[..k], f)
      {
        var d := drivers[k];
        NotYet(drivers, k);
        assert drivers[..k + 1] == drivers[..k] + [d];
        iters := iters[d := f(iters[d])];
      }
      assert drivers[..|drivers|] == drivers;
    }

    method Dispose()
      requires Valid()
      modifies this
      ensures Valid() && State() == AfterDispose(old(State()))
    {
      if disposed { return; }
      disposed := true;
      Drive((it: Iter) => it.End());
      drivers := [];
      subs := [];
      if registration.Succeeded? && registration.id != [] && native { cancels := cancels + [registration.id]; }
    }

    method Fail(e: Text)
      requires Valid()
      modifies this
      ensures Valid() && State() == AfterFail(old(State()), e)
    {
      if errored { return; }
      errored := true;
      Call(OnError(e));
      Drive((it: Iter) => it.Fail(e));
      Dispose();
    }

    method OnEnvelope(env: LiveEnvelope)
      requires Valid()
      modifies this
      ensures Valid() && State() == AfterEnvelope(old(State()), env)
    {
      if disposed || errored { return; }
      match env {
        case Malformed => Fail(CORRUPT);
        case RecomputeError(m) => Fail(m);
        case Snapshot(rows) => Accept(rows);
      }
    }

    method Accept(rows: Snap)
      requires Valid()
      modifies this
      ensures Valid() && State() == AfterSnapshot(old(State()), rows)
    {
      value := rows;
      received := true;
      accepted := accepted + [rows];
      Call(OnNext(rows));
      Drive((it: Iter) => it.Push(rows));
    }

    /** The native registration resolves. If the query ended first, the core is cancelled here. */
    method OnRegistered(id: Text, initial: LiveEnvelope)
      requires Valid()
      modifies this
      ensures Valid() && State() == AfterRegistered(old(State()), id, initial)
    {
      registration := Succeeded(id);
      if disposed {
        cancels := cancels + [id];
        return;
      }
      native := true;
      OnEnvelope(initial);
    }

    method OnRefused(e: Text)
      requires Valid()
      modifies this
      ensures Valid() && State() == AfterRefused(old(State()), e)
    {
      registration := Refused;
      Fail(e);
    }

    method Subscribe() returns (x: Option<nat>)
      requires Valid()
      modifies this
      ensures Valid() && State() == AfterSubscribe(old(State()))
      ensures x == if old(disposed) then None else Some(|old(froms)|)
    {
      if disposed { return None; }
      var id := |froms|;
      subs := subs + [id];
      froms := froms + [Start(State())];
      if received { calls := calls + [(id, OnNext(value))]; }
      return Some(id);
    }

    method Unsubscribe(x: nat)
      requires Valid()
      modifies this`subs
      ensures Valid() && State() == old(State()).(subs := Remove(old(subs), x))
    {
      subs := Remove(subs, x);
    }

    method Iterate() returns (i: nat)
      requires Valid()
      modifies this
      ensures Valid() && State() == AfterIterate(old(State())) && i == |old(iters)|
    {
      i := |iters|;
      drivers := drivers + [i];
      var it := Iter([], None, None, false, 0, [], [], Start(State()));
      if received { it := it.Push(value); }
      iters := iters + [it];
    }

    method Next(i: nat)
      requires Valid() && i < |iters|
      modifies this`iters
      ensures Valid() && State() == AfterNext(old(State()), i)
      ensures var it, it' := old(iters[i]), iters[i];
              if it.failWith.Some? then it' == it.(tickets := it.tickets + 1, results := it.results + [(it.tickets, Threw(it.failWith.value))])
              else if it.queue != [] then
                it' == it.(tickets := it.tickets + 1, queue := it.queue[1..], results := it.results + [(it.tickets, Value(it.queue[0]))])
              else if it.ended then it' == it.(tickets := it.tickets + 1, results := it.results + [(it.tickets, Done)])
              else it' == it.(tickets := it.tickets + 1, pending := Some(it.tickets))
    {
      iters := iters[i := iters[i].Next()];
    }

    method Return(i: nat)
      requires Valid()
      modifies this
      ensures Valid() && State() == AfterReturn(old(State()), i)
    {
      RemoveRises(drivers, i, |iters|);
      drivers := Remove(drivers, i);
      Dispose();
    }
  }

  predicate Rising(q: seq<nat>, limit: nat) {
    && (forall i :: 0 <= i < |q| ==> q[i] < limit)
    && (forall i, j :: 0 <= i < j < |q| ==> q[i] < q[j])
  }

  lemma NotYet(q: seq<nat>, k: nat)
    requires k < |q| && forall i, j :: 0 <= i < j < |q| ==> q[i] < q[j]
    ensures q[k] !in q[..k]
  {
  }

  lemma {:induction false} RemoveFacts(q: seq<nat>, x: nat)
    ensures forall y :: y in Remove(q, x) <==> y in q && y != x
  {
    if q != [] {
      RemoveFacts(q[1..], x);
      assert q == [q[0]] + q[1..];
    }
  }

  lemma {:induction false} RemoveRises(q: seq<nat>, x: nat, limit: nat)
    requires Rising(q, limit)
    ensures Rising(Remove(q, x), limit)
  {
    if q != [] {
      RemoveRises(q[1..], x, limit);
      RemoveFacts(q[1..], x);
      var r := Remove(q[1..], x);
      forall i | 0 <= i < |r| ensures q[0] < r[i] { assert r[i] in r && r[i] in q[1..]; }
    }
  }

  // ---- every order of events ---------------------------------------------------------------------

  datatype Event =
    | Registered(id: Text, initial: LiveEnvelope)
    | RegistrationRefused(error: Text)
    | Emission(env: LiveEnvelope)
    | SubscribeCall
    | UnsubscribeCall(x: nat)
    | IterateCall
    | NextCall(i: nat)
    | ReturnCall(i: nat)
    | DisposeCall

  /** The registration promise settles once; everything else may happen at any time. */
  predicate Possible(s: LqState, e: Event) {
    ((e.Registered? || e.RegistrationRefused?) ==> s.registration.Unsettled?) && (e.NextCall? || e.ReturnCall? ==> e.i < |s.iters|)
  }

  function After(s: LqState, e: Event): LqState
    requires Possible(s, e)
  {
    match e
    case Registered(id, initial) => AfterRegistered(s, id, initial)
    case RegistrationRefused(m) => AfterRefused(s, m)
    case Emission(env) => AfterEnvelope(s, env)
    case SubscribeCall => AfterSubscribe(s)
    case UnsubscribeCall(x) => s.(subs := Remove(s.subs, x))
    case IterateCall => AfterIterate(s)
    case NextCall(i) => AfterNext(s, i)
    case ReturnCall(i) => AfterReturn(s, i)
    case DisposeCall => AfterDispose(s)
  }

  ghost predicate History(run: seq<LqState>, events: seq<Event>) {
    && |run| == |events| + 1 && run[0] == INITIAL
    && forall n :: 0 <= n < |events| ==> Possible(run[n], events[n]) && run[n + 1] == After(run[n], events[n])
  }

  // ---- cancellation ---------------------------------------------------------------------------------

  /** The `liveCancel` calls are determined by how far registration and the query have come. */
  predicate CancelAccount(s: LqState) {
    && (s.errored ==> s.disposed)
    && (s.native ==> s.registration.Succeeded?)
    && (s.registration.Succeeded? && !s.disposed ==> s.native)
    && s.cancels == (if s.registration.Succeeded? && s.disposed && (s.registration.id != [] || !s.native)
                     then [s.registration.id] else [])
  }

  lemma CancelKept(s: LqState, e: Event)
    requires CancelAccount(s) && Possible(s, e)
    ensures CancelAccount(After(s, e))
  {
    match e
    case Registered(id, initial) => if !s.disposed { EnvelopeCancels(s.(registration := Succeeded(id), native := true), initial); }
    case RegistrationRefused(m) => FailCancels(s.(registration := Refused), m);
    case Emission(env) => EnvelopeCancels(s, env);
    case _ =>
  }

  lemma FailCancels(s: LqState, m: Text)
    requires CancelAccount(s)
    ensures CancelAccount(AfterFail(s, m))
  {
  }

  lemma EnvelopeCancels(s: LqState, env: LiveEnvelope)
    requires CancelAccount(s)
    ensures CancelAccount(AfterEnvelope(s, env))
  {
    if env.RecomputeError? { FailCancels(s, env.message); }
    if env.Malformed? { FailCancels(s, CORRUPT); }
  }

  lemma {:induction false} CancelAlways(run: seq<LqState>, events: seq<Event>, n: nat)
    requires History(run, events) && n < |run|
    ensures CancelAccount(run[n])
  {
    if n != 0 {
      CancelAlways(run, events, n - 1);
      CancelKept(run[n - 1], events[n - 1]);
    }
  }

  /** The core subscription is cancelled at most once, and exactly once when the registration
      succeeds under a non-empty id and the query has ended. */
  lemma CancelledOnce(run: seq<LqState>, events: seq<Event>, n: nat)
    requires History(run, events) && n < |run|
    ensures |run[n].cancels| <= 1
    ensures run[n].registration.Succeeded? && run[n].registration.id != [] ==>
              (run[n].cancels == [run[n].registration.id] <==> run[n].disposed)
    ensures !run[n].registration.Succeeded? ==> run[n].cancels == []
  {
    CancelAlways(run, events, n);
  }

  // ---- what subscribers and iterators see --------------------------------------------------------------

  function NextsOf(calls: seq<(nat, Call)>, x: nat): seq<Snap> {
    if calls == [] then [] else
      var (y, call) := calls[|calls| - 1];
      NextsOf(calls[..|calls| - 1], x) + (if y == x && call.OnNext? then [call.rows] else [])
  }

  lemma {:induction false} NextsAppend(p: seq<(nat, Call)>, q: seq<(nat, Call)>, x: nat)
    ensures NextsOf(p + q, x) == NextsOf(p, x) + NextsOf(q, x)
    decreases |q|
  {
    if q == [] {
      assert p + q == p;
    } else {
      assert (p + q)[..|p + q| - 1] == p + q[..|q| - 1];
      NextsAppend(p, q[..|q| - 1], x);
    }
  }

  lemma {:induction false} NextsOfAll(subs: seq<nat>, call: Call, x: nat, limit: nat)
    requires Rising(subs, limit)
    ensures NextsOf(CallAll(subs, call), x) == if call.OnNext? && x in subs then [call.rows] else []
  {
    if subs != [] {
      var k := |subs| - 1;
      var calls := CallAll(subs, call);
      assert calls[..k] == CallAll(subs[..k], call) && calls[k] == (subs[k], call);
      assert x in subs <==> x in subs[..k] || x == subs[k];
      NextsOfAll(subs[..k], call, x, limit);
      NotYet(subs, k);
    }
  }

  /** What has been accepted and what each party has been told of it. */
  ghost predicate Shape(s: LqState) {
    && Rising(s.drivers, |s.iters|) && Rising(s.subs, |s.froms|)
    && (s.received <==> s.accepted != [])
    && (s.received ==> s.value == s.accepted[|s.accepted| - 1])
    && (s.disposed ==> s.subs == []) && (s.errored ==> s.disposed)
  }

  /** A subscriber has seen the accepted snapshots from its start on: all of them while it is
      subscribed, a prefix of them afterwards. */
  ghost predicate Told(s: LqState, x: nat)
    requires x < |s.froms|
  {
    && s.froms[x] <= |s.accepted|
    && NextsOf(s.calls, x) <= s.accepted[s.froms[x]..]
    && (x in s.subs ==> NextsOf(s.calls, x) == s.accepted[s.froms[x]..])
  }

  ghost predicate AllTold(s: LqState) {
    && (forall x :: 0 <= x < |s.froms| ==> Told(s, x))
    && (forall x :: x >= |s.froms| ==> NextsOf(s.calls, x) == [])
  }

  /** The same of an iterator, whose pushes it queues and delivers. */
  ghost predicate Fed(s: LqState, i: nat)
    requires i < |s.iters|
  {
    var it := s.iters[i];
    && Coherent(it) && it.from <= |s.accepted|
    && it.pushed <= s.accepted[it.from..]
    && (i in s.drivers ==> it.pushed == s.accepted[it.from..])
  }

  ghost predicate AllFed(s: LqState) { forall i :: 0 <= i < |s.iters| ==> Fed(s, i) }

  ghost predicate LqInv(s: LqState) { Shape(s) && AllTold(s) && AllFed(s) }

  lemma SnapshotTold(s: LqState, rows: Snap)
    requires Shape(s) && AllTold(s)
    ensures AllTold(AfterSnapshot(s, rows))
  {
    var s' := AfterSnapshot(s, rows);
    forall x: nat ensures NextsOf(s'.calls, x) == NextsOf(s.calls, x) + (if x in s.subs then [rows] else []) {
      NextsAppend(s.calls, CallAll(s.subs, OnNext(rows)), x);
      NextsOfAll(s.subs, OnNext(rows), x, |s.froms|);
    }
    forall x | 0 <= x < |s'.froms| ensures Told(s', x) {
      assert Told(s, x);
      assert s'.accepted[s.froms[x]..] == s.accepted[s.froms[x]..] + [rows];
    }
  }

  lemma SnapshotFed(s: LqState, rows: Snap)
    requires AllFed(s)
    ensures AllFed(AfterSnapshot(s, rows))
  {
    var s' := AfterSnapshot(s, rows);
    forall i | 0 <= i < |s'.iters| ensures Fed(s', i) {
      assert Fed(s, i);
      PushCoherent(s.iters[i], rows);
      assert s'.accepted[s.iters[i].from..] == s.accepted[s.iters[i].from..] + [rows];
    }
  }

  lemma SnapshotInv(s: LqState, rows: Snap)
    requires LqInv(s) && !s.disposed && !s.errored
    ensures LqInv(AfterSnapshot(s, rows))
  {
    SnapshotTold(s, rows);
    SnapshotFed(s, rows);
  }

  lemma DisposeInv(s: LqState)
    requires LqInv(s)
    ensures LqInv(AfterDispose(s))
  {
    if !s.disposed {
      var s' := AfterDispose(s);
      forall i | 0 <= i < |s'.iters| ensures Fed(s', i) {
        assert Fed(s, i);
        EndedCoherent(s.iters[i]);
      }
      forall x | 0 <= x < |s'.froms| ensures Told(s', x) { assert Told(s, x); }
    }
  }

  /** The query in the middle of failing: everyone has been told, nothing is disposed yet. */
  function Failing(s: LqState, e: Text): LqState {
    s.(calls := s.calls + CallAll(s.subs, OnError(e)), iters := ForDrivers(s.iters, s.drivers, (it: Iter) => it.Fail(e)))
  }

  lemma FailingInv(s: LqState, e: Text)
    requires LqInv(s)
    ensures LqInv(Failing(s, e))
  {
    var s' := Failing(s, e);
    forall x: nat ensures NextsOf(s'.calls, x) == NextsOf(s.calls, x) {
      NextsAppend(s.calls, CallAll(s.subs, OnError(e)), x);
      NextsOfAll(s.subs, OnError(e), x, |s.froms|);
    }
    forall x | 0 <= x < |s'.froms| ensures Told(s', x) { assert Told(s, x); }
    forall i | 0 <= i < |s'.iters| ensures Fed(s', i) {
      assert Fed(s, i);
      FailCoherent(s.iters[i], e);
    }
  }

  lemma FailInv(s: LqState, e: Text)
    requires LqInv(s)
    ensures LqInv(AfterFail(s, e))
  {
    if !s.errored {
      FailingInv(s, e);
      DisposeInv(Failing(s, e));
      ErroredInv(AfterDispose(Failing(s, e)));
      assert AfterFail(s, e) == AfterDispose(Failing(s, e)).(errored := true);
    }
  }

  lemma ErroredInv(s: LqState)
    requires LqInv(s) && s.disposed
    ensures LqInv(s.(errored := true))
  {
    var s' := s.(errored := true);
    forall x | 0 <= x < |s'.froms| ensures Told(s', x) { assert Told(s, x); }
    forall i | 0 <= i < |s'.iters| ensures Fed(s', i) { assert Fed(s, i); }
  }

  /** Registration and cancellation leave what was told alone. */
  lemma RegistrationInv(s: LqState, r: Registration, native: bool, cancels: seq<Text>)
    requires LqInv(s)
    ensures LqInv(s.(registration := r, native := native, cancels := cancels))
  {
    var s' := s.(registration := r, native := native, cancels := cancels);
    forall x | 0 <= x < |s'.froms| ensures Told(s', x) { assert Told(s, x); }
    forall i | 0 <= i < |s'.iters| ensures Fed(s', i) { assert Fed(s, i); }
  }

  lemma EnvelopeInv(s: LqState, env: LiveEnvelope)
    requires LqInv(s)
    ensures LqInv(AfterEnvelope(s, env))
  {
    if !s.disposed && !s.errored {
      match env
      case Snapshot(rows) => SnapshotInv(s, rows);
      case RecomputeError(m) => FailInv(s, m);
      case Malformed => FailInv(s, CORRUPT);
    }
  }

  lemma SubscribeInv(s: LqState)
    requires LqInv(s)
    ensures LqInv(AfterSubscribe(s))
  {
    if !s.disposed {
      var s', id := AfterSubscribe(s), |s.froms|;
      var more := if s.received then [(id, OnNext(s.value))] else [];
      forall x: nat ensures NextsOf(s'.calls, x) == NextsOf(s.calls, x) + (if x == id && s.received then [s.value] else []) {
        NextsAppend(s.calls, more, x);
        assert s.received ==> more[..0] == [];
      }
      forall x | 0 <= x < |s'.froms| ensures Told(s', x) {
        if x < id { assert Told(s, x); } else { assert s.accepted[Start(s)..] == if s.received then [s.value] else []; }
      }
      forall i | 0 <= i < |s'.iters| ensures Fed(s', i) { assert Fed(s, i); }
    }
  }

  lemma FewerInv(s: LqState, subs: seq<nat>, drivers: seq<nat>)
    requires LqInv(s) && Rising(subs, |s.froms|) && Rising(drivers, |s.iters|)
    requires (forall x :: x in subs ==> x in s.subs) && (forall i :: i in drivers ==> i in s.drivers)
    ensures LqInv(s.(subs := subs, drivers := drivers))
  {
    var s' := s.(subs := subs, drivers := drivers);
    assert subs != [] ==> subs[0] in s.subs;
    forall x | 0 <= x < |s'.froms| ensures Told(s', x) { assert Told(s, x); }
    forall i | 0 <= i < |s'.iters| ensures Fed(s', i) { assert Fed(s, i); }
  }

  lemma IterateInv(s: LqState)
    requires LqInv(s)
    ensures LqInv(AfterIterate(s))
  {
    var s' := AfterIterate(s);
    forall x | 0 <= x < |s'.froms| ensures Told(s', x) { assert Told(s, x); }
    forall i | 0 <= i < |s'.iters| ensures Fed(s', i) {
      if i < |s.iters| { FedStays(s, s', i); } else { FreshIsFed(s); }
    }
  }

  lemma FedStays(s: LqState, s': LqState, i: nat)
    requires i < |s.iters| && i < |s'.iters| && s'.iters[i] == s.iters[i] && s'.accepted == s.accepted && AllFed(s)
    requires i in s'.drivers <==> i in s.drivers
    ensures Fed(s', i)
  {
    assert Fed(s, i);
  }

  lemma FreshIsFed(s: LqState)
    requires Shape(s)
    ensures Fed(AfterIterate(s), |s.iters|)
  {
    assert s.accepted[Start(s)..] == if s.received then [s.value] else [];
    assert FreshIter(s).pushed == if s.received then [s.value] else [];
  }

  lemma NextFed(s: LqState, i: nat)
    requires i < |s.iters| && Fed(s, i)
    ensures Fed(AfterNext(s, i), i)
  {
    NextCoherent(s.iters[i]);
  }

  lemma NextInv(s: LqState, i: nat)
    requires LqInv(s) && i < |s.iters|
    ensures LqInv(AfterNext(s, i))
  {
    var s' := AfterNext(s, i);
    forall x | 0 <= x < |s'.froms| ensures Told(s', x) { assert Told(s, x); }
    forall j | 0 <= j < |s'.iters| ensures Fed(s', j) {
      assert Fed(s, j);
      if j == i { NextFed(s, i); }
    }
  }

  lemma LqInvKept(s: LqState, e: Event)
    requires LqInv(s) && Possible(s, e)
    ensures LqInv(After(s, e))
  {
    match e
    case Registered(id, initial) =>
      if s.disposed {
        RegistrationInv(s, Succeeded(id), s.native, s.cancels + [id]);
      } else {
        RegistrationInv(s, Succeeded(id), true, s.cancels);
        EnvelopeInv(s.(registration := Succeeded(id), native := true), initial);
      }
    case RegistrationRefused(m) =>
      RegistrationInv(s, Refused, s.native, s.cancels);
      FailInv(s.(registration := Refused), m);
    case Emission(env) => EnvelopeInv(s, env);
    case SubscribeCall => SubscribeInv(s);
    case UnsubscribeCall(x) =>
      RemoveFacts(s.subs, x);
      RemoveRises(s.subs, x, |s.froms|);
      FewerInv(s, Remove(s.subs, x), s.drivers);
    case IterateCall => IterateInv(s);
    case NextCall(i) => NextInv(s, i);
    case ReturnCall(i) =>
      RemoveFacts(s.drivers, i);
      RemoveRises(s.drivers, i, |s.iters|);
      FewerInv(s, s.subs, Remove(s.drivers, i));
      DisposeInv(s.(subs := s.subs, drivers := Remove(s.drivers, i)));
    case DisposeCall => DisposeInv(s);
  }

  lemma {:induction false} LqInvAlways(run: seq<LqState>, events: seq<Event>, n: nat)
    requires History(run, events) && n < |run|
    ensures LqInv(run[n])
  {
    if n != 0 {
      LqInvAlways(run, events, n - 1);
      LqInvKept(run[n - 1], events[n - 1]);
    }
  }

  /** In every run, what an iterator has delivered followed by its queue are the accepted
      snapshots from its creation on, and every call of `next` settles at most once. */
  lemma IteratorAccount(run: seq<LqState>, events: seq<Event>, n: nat, i: nat)
    requires History(run, events) && n < |run| && i < |run[n].iters|
    ensures var s, it := run[n], run[n].iters[i];
            && it.from <= |s.accepted|
            && Delivered(it.results) + it.queue <= s.accepted[it.from..]
            && (i in s.drivers ==> Delivered(it.results) + it.queue == s.accepted[it.from..])
            && (forall a, b :: 0 <= a < b < |it.results| ==> it.results[a].0 != it.results[b].0)
  {
    LqInvAlways(run, events, n);
    assert Fed(run[n], i);
  }

  /** In every run, a current subscriber has been called with exactly the accepted snapshots from
      its subscription on. */
  lemma SubscriberAccount(run: seq<LqState>, events: seq<Event>, n: nat, x: nat)
    requires History(run, events) && n < |run| && x in run[n].subs
    ensures x < |run[n].froms| && run[n].froms[x] <= |run[n].accepted|
    ensures NextsOf(run[n].calls, x) == run[n].accepted[run[n].froms[x]..]
  {
    LqInvAlways(run, events, n);
    assert Told(run[n], x);
  }

  // ---- after the end -----------------------------------------------------------------------------------

  /** A query that has ended takes no snapshot and calls nobody back. */
  lemma EndIsFinal(s: LqState, e: Event)
    requires LqInv(s) && s.disposed && Possible(s, e)
    ensures var s' := After(s, e); s'.disposed && s'.accepted == s.accepted && s'.value == s.value
    ensures forall x :: NextsOf(After(s, e).calls, x) == NextsOf(s.calls, x)
  {
    match e
    case RegistrationRefused(m) =>
      if !s.errored { assert s.calls + CallAll(s.subs, OnError(m)) == s.calls; }
    case _ =>
  }
}
