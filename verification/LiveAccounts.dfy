/** What a live query tells its subscribers and iterators, from the events alone: every snapshot
    before the end, the error that ended it, and nothing else. */
module LiveAccounts {
  import opened Lex
  import Json
  import opened LiveQueries
  import opened LiveCalls

  // ---- what the events say -----------------------------------------------------------------------

  /** The query is over with the first of these: a dispose, a `return`, a failed registration, or
      anything in place of a snapshot. */
  predicate Final(e: Event) {
    match e
    case Registered(_, initial) => !initial.Snapshot?
    case RegistrationRefused(_) => true
    case Emission(env) => !env.Snapshot?
    case ReturnCall(_) => true
    case DisposeCall => true
    case _ => false
  }

  /** One of the first `n` events is final. */
  predicate AnyFinal(events: seq<Event>, n: nat) {
    exists m :: 0 <= m < n && m < |events| && Final(events[m])
  }

  function SnapOf(e: Event): seq<Snap> {
    if e.Registered? && e.initial.Snapshot? then [e.initial.rows]
    else if e.Emission? && e.env.Snapshot? then [e.env.rows]
    else []
  }

  /** The snapshots the first `n` events bring, up to the end. */
  function Snaps(events: seq<Event>, n: nat): seq<Snap>
    requires n <= |events|
  {
    if n == 0 then [] else Snaps(events, n - 1) + if AnyFinal(events, n - 1) then [] else SnapOf(events[n - 1])
  }

  /** The error an event tells everybody, if any. */
  function ErrorIn(e: Event): seq<Text> {
    match e
    case Registered(_, RecomputeError(m)) => [m]
    case Registered(_, Malformed) => [CORRUPT]
    case RegistrationRefused(m) => [m]
    case Emission(RecomputeError(m)) => [m]
    case Emission(Malformed) => [CORRUPT]
    case _ => []
  }

  // ---- one event -----------------------------------------------------------------------------------

  lemma FailTells(s: LqState, m: Text)
    requires !s.disposed && !s.errored
    ensures var s' := AfterFail(s, m);
            && s'.disposed && s'.accepted == s.accepted && s'.value == s.value && s'.froms == s.froms
            && s'.calls == s.calls + CallAll(s.subs, OnError(m))
  {
  }

  lemma EnvelopeTells(s: LqState, env: LiveEnvelope)
    requires !s.disposed && !s.errored
    ensures var s' := AfterEnvelope(s, env);
            && s'.froms == s.froms && (s'.disposed <==> !env.Snapshot?)
            && s'.accepted == (if env.Snapshot? then s.accepted + [env.rows] else s.accepted)
            && s'.calls == s.calls + CallAll(s.subs, match env
                 case Snapshot(rows) => OnNext(rows) case RecomputeError(m) => OnError(m) case Malformed => OnError(CORRUPT))
  {
    if env.RecomputeError? { FailTells(s, env.message); }
    if env.Malformed? { FailTells(s, CORRUPT); }
  }

  /** An open query: who is called with what, and whether it is over. */
  lemma OpenStep(s: LqState, e: Event)
    requires Possible(s, e) && !s.disposed && !s.errored
    ensures var s' := After(s, e);
            && (s'.disposed <==> Final(e))
            && s'.accepted == s.accepted + SnapOf(e)
            && (ErrorIn(e) != [] ==> s'.calls == s.calls + CallAll(s.subs, OnError(ErrorIn(e)[0])))
            && (SnapOf(e) != [] ==> s'.calls == s.calls + CallAll(s.subs, OnNext(SnapOf(e)[0])))
            && (ErrorIn(e) == SnapOf(e) == [] && !e.SubscribeCall? ==> s'.calls == s.calls)
            && (if e.SubscribeCall? then |s'.froms| == |s.froms| + 1 && s.froms <= s'.froms else s'.froms == s.froms)
  {
    match e
    case Registered(id, initial) => EnvelopeTells(s.(registration := Succeeded(id), native := true), initial);
    case RegistrationRefused(m) => FailTells(s.(registration := Refused), m);
    case Emission(env) => EnvelopeTells(s, env);
    case _ =>
  }

  /** A query that is over: nothing more is taken in and nobody is called. */
  lemma OverStep(s: LqState, e: Event)
    requires Possible(s, e) && s.disposed && s.subs == []
    ensures var s' := After(s, e);
            s'.disposed && s'.accepted == s.accepted && s'.calls == s.calls && s'.froms == s.froms
  {
    match e
    case RegistrationRefused(m) => if !s.errored { assert s.calls + CallAll([], OnError(m)) == s.calls; }
    case _ =>
  }

  // ---- over every run --------------------------------------------------------------------------------

  /** In every run the query is over exactly after the first final event, and has taken in exactly
      the snapshots that came before it. */
  lemma {:induction false} AcceptedExactly(run: seq<LqState>, events: seq<Event>, n: nat)
    requires History(run, events) && n < |run|
    ensures run[n].disposed <==> AnyFinal(events, n)
    ensures run[n].accepted == Snaps(events, n)
  {
    if n != 0 {
      var s, e := run[n - 1], events[n - 1];
      AcceptedExactly(run, events, n - 1);
      LqInvAlways(run, events, n - 1);
      if s.disposed { OverStep(s, e); } else { OpenStep(s, e); }
    }
  }

  /** The place of the latest of `k` snapshots; a late party starts there. */
  function Latest(k: nat): nat { if k == 0 then 0 else k - 1 }

  lemma SnapsGrow(events: seq<Event>, m: nat, n: nat)
    requires m <= n <= |events|
    ensures |Snaps(events, m)| <= |Snaps(events, n)|
    decreases n
  {
    if m < n {
      SnapsGrow(events, m, n - 1);
    }
  }

  lemma StepFroms(s: LqState, e: Event)
    requires LqInv(s) && Possible(s, e)
    ensures s.froms <= After(s, e).froms
  {
    if s.disposed { OverStep(s, e); } else { OpenStep(s, e); }
  }

  lemma {:induction false} FromsStay(run: seq<LqState>, events: seq<Event>, m: nat, n: nat)
    requires History(run, events) && m <= n < |run|
    ensures run[m].froms <= run[n].froms
    decreases n
  {
    if m < n {
      FromsStay(run, events, m, n - 1);
      LqInvAlways(run, events, n - 1);
      StepFroms(run[n - 1], events[n - 1]);
    }
  }

  /** In every run, somebody who subscribed at event `m` and still is subscribed has been called
      with the latest snapshot of that moment, if there was one, and every snapshot since. */
  lemma SubscriberSees(run: seq<LqState>, events: seq<Event>, m: nat, n: nat, x: nat)
    requires History(run, events) && m < n < |run| && events[m] == SubscribeCall
    requires x == |run[m].froms| && x in run[n].subs
    ensures Latest(|Snaps(events, m)|) <= |Snaps(events, n)|
    ensures NextsOf(run[n].calls, x) == Snaps(events, n)[Latest(|Snaps(events, m)|)..]
  {
    AcceptedExactly(run, events, m);
    AcceptedExactly(run, events, n);
    SnapsGrow(events, m, n);
    LqInvAlways(run, events, m);
    LqInvAlways(run, events, n);
    SubscriberAccount(run, events, n, x);
    FromsStay(run, events, m + 1, n);
    SubscribedAtLatest(run, events, m, n);
  }

  lemma SubscribedAtLatest(run: seq<LqState>, events: seq<Event>, m: nat, n: nat)
    requires History(run, events) && m < n < |run| && events[m] == SubscribeCall
    requires Shape(run[m]) && !run[m].disposed && run[m + 1].froms <= run[n].froms
    ensures |run[m].froms| < |run[n].froms| && run[n].froms[|run[m].froms|] == Latest(|run[m].accepted|)
  {
  }

  lemma StepFrom(s: LqState, e: Event, i: nat)
    requires Possible(s, e) && (s.errored ==> s.disposed) && i < |s.iters|
    ensures i < |After(s, e).iters| && After(s, e).iters[i].from == s.iters[i].from
  {
    StepOnIter(s, e, i);
  }

  lemma {:induction false} FromStays(run: seq<LqState>, events: seq<Event>, m: nat, n: nat, i: nat)
    requires History(run, events) && m <= n < |run| && i < |run[m].iters|
    ensures i < |run[n].iters| && run[n].iters[i].from == run[m].iters[i].from
    decreases n
  {
    if m < n {
      FromStays(run, events, m, n - 1, i);
      OpenShapeAlways(run, events, n - 1);
      StepFrom(run[n - 1], events[n - 1], i);
    }
  }

  /** The same of an iterator created at event `m`: delivered or still queued, it gets the latest
      snapshot of that moment and every one since. One created after the end gets the last. */
  lemma IteratorSees(run: seq<LqState>, events: seq<Event>, m: nat, n: nat, i: nat)
    requires History(run, events) && m < n < |run| && events[m] == IterateCall
    requires i == |run[m].iters| && i < |run[n].iters| && i in run[n].drivers
    ensures Latest(|Snaps(events, m)|) <= |Snaps(events, n)|
    ensures Delivered(run[n].iters[i].results) + run[n].iters[i].queue == Snaps(events, n)[Latest(|Snaps(events, m)|)..]
  {
    AcceptedExactly(run, events, m);
    AcceptedExactly(run, events, n);
    SnapsGrow(events, m, n);
    LqInvAlways(run, events, m);
    IteratorAccount(run, events, n, i);
    CreatedAtLatest(run, events, m, n);
  }

  lemma CreatedAtLatest(run: seq<LqState>, events: seq<Event>, m: nat, n: nat)
    requires History(run, events) && m < n < |run| && events[m] == IterateCall && Shape(run[m])
    ensures |run[m].iters| < |run[n].iters| && run[n].iters[|run[m].iters|].from == Latest(|run[m].accepted|)
  {
    assert run[m + 1] == AfterIterate(run[m]);
    StartsAtLatest(run[m]);
    FromStays(run, events, m + 1, n, |run[m].iters|);
  }

  lemma StartsAtLatest(s: LqState)
    requires Shape(s)
    ensures |s.iters| < |AfterIterate(s).iters| && AfterIterate(s).iters[|s.iters|].from == Latest(|s.accepted|)
  {
    assert AfterIterate(s).iters[|s.iters|] == FreshIter(s) && FreshIter(s).from == Start(s);
  }

  // ---- errors ------------------------------------------------------------------------------------------

  /** The errors a subscriber was called with. */
  function ErrorsOf(calls: seq<(nat, Call)>, x: nat): seq<Text> {
    if calls == [] then [] else
      var (y, call) := calls[|calls| - 1];
      ErrorsOf(calls[..|calls| - 1], x) + (if y == x && call.OnError? then [call.error] else [])
  }

  lemma {:induction false} ErrorsAppend(p: seq<(nat, Call)>, q: seq<(nat, Call)>, x: nat)
    ensures ErrorsOf(p + q, x) == ErrorsOf(p, x) + ErrorsOf(q, x)
    decreases |q|
  {
    if q == [] {
      assert p + q == p;
    } else {
      assert (p + q)[..|p + q| - 1] == p + q[..|q| - 1];
      ErrorsAppend(p, q[..|q| - 1], x);
    }
  }

  lemma {:induction false} ErrorsOfAll(subs: seq<nat>, call: Call, x: nat, limit: nat)
    requires Rising(subs, limit)
    ensures ErrorsOf(CallAll(subs, call), x) == if call.OnError? && x in subs then [call.error] else []
  {
    if subs != [] {
      var k := |subs| - 1;
      var calls := CallAll(subs, call);
      assert calls[..k] == CallAll(subs[..k], call) && calls[k] == (subs[k], call);
      assert x in subs <==> x in subs[..k] || x == subs[k];
      ErrorsOfAll(subs[..k], call, x, limit);
      NotYet(subs, k);
    }
  }

  lemma CallErrors(s: LqState, call: Call, x: nat)
    requires Rising(s.subs, |s.froms|)
    ensures ErrorsOf(s.calls + CallAll(s.subs, call), x)
            == ErrorsOf(s.calls, x) + if call.OnError? && x in s.subs then [call.error] else []
  {
    ErrorsAppend(s.calls, CallAll(s.subs, call), x);
    ErrorsOfAll(s.subs, call, x, |s.froms|);
  }

  lemma SubscribeErrors(s: LqState, x: nat)
    ensures ErrorsOf(AfterSubscribe(s).calls, x) == ErrorsOf(s.calls, x)
  {
    var more := if s.received then [(|s.froms|, OnNext(s.value))] else [];
    ErrorsAppend(s.calls, more, x);
    assert s.received ==> more[..0] == [];
  }

  lemma OpenErrors(s: LqState, e: Event, x: nat)
    requires Rising(s.subs, |s.froms|) && Possible(s, e) && !s.disposed && !s.errored
    ensures ErrorsOf(After(s, e).calls, x) == ErrorsOf(s.calls, x) + if x in s.subs then ErrorIn(e) else []
  {
    OpenStep(s, e);
    if e.SubscribeCall? {
      SubscribeErrors(s, x);
    } else if ErrorIn(e) != [] {
      CallErrors(s, OnError(ErrorIn(e)[0]), x);
    } else if SnapOf(e) != [] {
      CallErrors(s, OnNext(SnapOf(e)[0]), x);
    }
  }

  /** Open or over, by the events. */
  lemma OpenOrOver(run: seq<LqState>, events: seq<Event>, n: nat)
    requires History(run, events) && n < |run|
    ensures if AnyFinal(events, n) then run[n].disposed && run[n].subs == []
            else !run[n].disposed && !run[n].errored && Rising(run[n].subs, |run[n].froms|)
  {
    AcceptedExactly(run, events, n);
    LqInvAlways(run, events, n);
  }

  /** As long as the query is open, nobody is told an error. */
  lemma {:induction false} NoErrorYet(run: seq<LqState>, events: seq<Event>, n: nat, x: nat)
    requires History(run, events) && n < |run| && !AnyFinal(events, n)
    ensures ErrorsOf(run[n].calls, x) == []
  {
    if n != 0 {
      NoErrorYet(run, events, n - 1, x);
      OpenOrOver(run, events, n - 1);
      OpenErrors(run[n - 1], events[n - 1], x);
    }
  }

  /** Once it is over, nobody is called at all. */
  lemma {:induction false} NoCallsAfter(run: seq<LqState>, events: seq<Event>, m: nat, n: nat)
    requires History(run, events) && m <= n < |run| && AnyFinal(events, m)
    ensures run[n].calls == run[m].calls
    decreases n
  {
    if m < n {
      NoCallsAfter(run, events, m, n - 1);
      CallsStay(run, events, n - 1);
    }
  }

  lemma CallsStay(run: seq<LqState>, events: seq<Event>, n: nat)
    requires History(run, events) && n < |events| && AnyFinal(events, n)
    ensures run[n + 1].calls == run[n].calls
  {
    OpenOrOver(run, events, n);
    OverStep(run[n], events[n]);
  }

  /** In every run the error that ends the query at event `m` reaches exactly those who were
      subscribed then, each of them once; a dispose or a `return` tells nobody an error. */
  lemma ErrorAccount(run: seq<LqState>, events: seq<Event>, m: nat, n: nat, x: nat)
    requires History(run, events) && m < n < |run| && Final(events[m]) && !AnyFinal(events, m)
    ensures ErrorsOf(run[n].calls, x) == if x in run[m].subs then ErrorIn(events[m]) else []
  {
    NoErrorYet(run, events, m, x);
    OpenOrOver(run, events, m);
    OpenErrors(run[m], events[m], x);
    NoCallsAfter(run, events, m + 1, n);
  }

  // ---- a waiting call ------------------------------------------------------------------------------------

  /** What an event tells the waiting call of iterator `i`: a snapshot, an error, or that there is
      no more. The iterator whose own `return` ends the query is told nothing. */
  function TellsCall(e: Event, i: nat): seq<IterResult> {
    if SnapOf(e) != [] then [Value(SnapOf(e)[0])]
    else if ErrorIn(e) != [] then [Threw(ErrorIn(e)[0])]
    else if e.DisposeCall? || (e.ReturnCall? && e.i != i) then [Done]
    else []
  }

  /** In every run, a call that waits on an open query is settled with that, and with nothing else. */
  lemma WaitingCallHears(run: seq<LqState>, events: seq<Event>, n: nat, i: nat)
    requires History(run, events) && n < |events| && !run[n].disposed
    requires i < |run[n].iters| && i in run[n].drivers && run[n].iters[i].pending.Some?
    ensures i < |run[n + 1].iters|
    ensures var it, told := run[n].iters[i], TellsCall(events[n], i);
            run[n + 1].iters[i].results == it.results + if told == [] then [] else [(it.pending.value, told[0])]
  {
    LqInvAlways(run, events, n);
    assert Fed(run[n], i);
    StepOnIter(run[n], events[n], i);
    IterHears(run[n], events[n], i);
  }

  /** The same of the event's effect on the iterator. */
  lemma IterHears(s: LqState, e: Event, i: nat)
    requires !s.disposed && !s.errored && i < |s.iters| && i in s.drivers && s.iters[i].pending.Some? && Coherent(s.iters[i])
    ensures var it, told := s.iters[i], TellsCall(e, i);
            IterAfter(s, e, i).results == it.results + if told == [] then [] else [(it.pending.value, told[0])]
  {
    var it, it' := s.iters[i], IterAfter(s, e, i);
    if SnapOf(e) != [] {
      assert it' == it.Push(SnapOf(e)[0]);
      CallHears(it, SnapOf(e)[0]);
    } else if ErrorIn(e) != [] {
      assert it' == it.Fail(ErrorIn(e)[0]).End();
      CallHears(it, ErrorIn(e)[0]);
    } else {
      IterEnds(s, e, i);
    }
  }

  lemma IterEnds(s: LqState, e: Event, i: nat)
    requires !s.disposed && !s.errored && i < |s.iters| && i in s.drivers && s.iters[i].pending.Some? && Coherent(s.iters[i])
    requires SnapOf(e) == [] && ErrorIn(e) == []
    ensures IterAfter(s, e, i).results ==
            s.iters[i].results + if TellsCall(e, i) == [] then [] else [(s.iters[i].pending.value, Done)]
  {
    CallHears(s.iters[i], []);
  }

  lemma CallHears(it: Iter, x: Text)
    requires Coherent(it) && it.pending.Some?
    ensures it.Push(x).results == it.results + [(it.pending.value, Value(x))]
    ensures it.Fail(x).results == it.results + [(it.pending.value, Threw(x))] && it.Fail(x).pending.None?
    ensures it.End().results == it.results + [(it.pending.value, Done)]
    ensures it.Next().results == it.results && it.Fail(x).End().results == it.Fail(x).results
  {
  }
}
