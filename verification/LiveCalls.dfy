/** Which calls of an iterator's `next` ever settle, over every order of events. */
module LiveCalls {
  import opened Lex
  import Json
  import opened LiveQueries

  // ---- what an event does to one iterator -------------------------------------------------------

  predicate TakesSnapshot(s: LqState, e: Event) {
    match e
    case Registered(_, initial) => !s.disposed && initial.Snapshot?
    case Emission(env) => !s.disposed && env.Snapshot?
    case _ => false
  }

  predicate IsError(s: LqState, e: Event) {
    match e
    case Registered(_, initial) => !s.disposed && !initial.Snapshot?
    case RegistrationRefused(_) => !s.errored
    case Emission(env) => !s.disposed && !env.Snapshot?
    case _ => false
  }

  /** The event with which the query is over. */
  predicate Ends(s: LqState, e: Event) { !s.disposed && (IsError(s, e) || e.DisposeCall? || e.ReturnCall?) }

  /** Iterator `i` is registered and hears of a snapshot, an error or the end; the iterator whose
      own `return` ends the query does not hear of the end. */
  predicate Reaches(s: LqState, e: Event, i: nat) {
    i in s.drivers && (TakesSnapshot(s, e) || IsError(s, e) || (Ends(s, e) && e != ReturnCall(i)))
  }

  /** A call that was waiting has been settled, and nothing else. */
  predicate Heard(it: Iter, it': Iter) {
    && it'.pending.None? && it'.tickets == it.tickets
    && it.results <= it'.results
    && match it.pending
       case None => it'.results == it.results
       case Some(t) => |it'.results| == |it.results| + 1 && it'.results[|it.results|].0 == t
  }

  function Rows(e: Event): Snap
    requires (e.Registered? && e.initial.Snapshot?) || (e.Emission? && e.env.Snapshot?)
  {
    if e.Registered? then e.initial.rows else e.env.rows
  }

  function Message(env: LiveEnvelope): Text
    requires !env.Snapshot?
  {
    if env.RecomputeError? then env.message else CORRUPT
  }

  function ErrorOf(e: Event): Text
    requires (e.Registered? && !e.initial.Snapshot?) || e.RegistrationRefused? || (e.Emission? && !e.env.Snapshot?)
  {
    if e.Registered? then Message(e.initial) else if e.Emission? then Message(e.env) else e.error
  }

  function Over(it: Iter, ends: bool): Iter { if ends then it.End() else it }

  /** An existing iterator after an event: at most one of snapshot, error and end. */
  function IterAfter(s: LqState, e: Event, i: nat): Iter
    requires i < |s.iters|
  {
    var it := s.iters[i];
    if e == NextCall(i) then it.Next()
    else if i !in s.drivers then it
    else if TakesSnapshot(s, e) then it.Push(Rows(e))
    else if IsError(s, e) then Over(it.Fail(ErrorOf(e)), !s.disposed)
    else Over(it, Ends(s, e) && e != ReturnCall(i))
  }

  lemma FailOnIter(s: LqState, m: Text, i: nat)
    requires (s.errored ==> s.disposed) && i < |s.iters|
    ensures var s' := AfterFail(s, m);
            && s'.errored && s'.disposed && |s'.iters| == |s.iters|
            && s'.iters[i] == if s.errored || i !in s.drivers then s.iters[i] else Over(s.iters[i].Fail(m), !s.disposed)
  {
  }

  lemma EnvelopeOnIter(s: LqState, env: LiveEnvelope, i: nat)
    requires (s.errored ==> s.disposed) && i < |s.iters|
    ensures var s' := AfterEnvelope(s, env);
            && |s'.iters| == |s.iters| && (s'.disposed <==> s.disposed || !env.Snapshot?)
            && s'.iters[i] == if s.disposed || i !in s.drivers then s.iters[i]
                              else if env.Snapshot? then s.iters[i].Push(env.rows)
                              else s.iters[i].Fail(Message(env)).End()
  {
    if env.RecomputeError? { FailOnIter(s, env.message, i); }
    if env.Malformed? { FailOnIter(s, CORRUPT, i); }
  }

  lemma ReturnOnIter(s: LqState, j: nat, i: nat)
    requires i < |s.iters|
    ensures var s' := AfterReturn(s, j);
            && s'.disposed && |s'.iters| == |s.iters|
            && s'.iters[i] == if i in s.drivers then Over(s.iters[i], !s.disposed && i != j) else s.iters[i]
  {
    RemoveFacts(s.drivers, j);
  }

  lemma DisposeOnIter(s: LqState, i: nat)
    requires i < |s.iters|
    ensures var s' := AfterDispose(s);
            && s'.disposed && |s'.iters| == |s.iters|
            && s'.iters[i] == Over(s.iters[i], !s.disposed && i in s.drivers)
  {
  }

  /** `IterAfter` is what an event does to an iterator. */
  lemma StepOnIter(s: LqState, e: Event, i: nat)
    requires Possible(s, e) && (s.errored ==> s.disposed) && i < |s.iters|
    ensures i < |After(s, e).iters| && After(s, e).iters[i] == IterAfter(s, e, i)
    ensures After(s, e).disposed <==> s.disposed || Ends(s, e)
  {
    match e
    case Registered(id, initial) =>
      if !s.disposed { EnvelopeOnIter(s.(registration := Succeeded(id), native := true), initial, i); }
    case RegistrationRefused(m) => FailOnIter(s.(registration := Refused), m, i);
    case Emission(env) => EnvelopeOnIter(s, env, i);
    case ReturnCall(j) => ReturnOnIter(s, j, i);
    case DisposeCall => DisposeOnIter(s, i);
    case _ =>
  }

  /** An event that reaches an iterator settles its waiting call, and one that does not leaves it alone. */
  lemma ReachesMeans(s: LqState, e: Event, i: nat)
    requires i < |s.iters|
    ensures Reaches(s, e, i) ==> Heard(s.iters[i], IterAfter(s, e, i))
    ensures !Reaches(s, e, i) && e != NextCall(i) ==> IterAfter(s, e, i) == s.iters[i]
  {
  }

  /** As long as the query is open, every iterator is registered and has heard of no end. */
  ghost predicate OpenShape(s: LqState) {
    !s.disposed ==> forall i :: 0 <= i < |s.iters| ==> i in s.drivers && !s.iters[i].ended
  }

  lemma OpenShapeKept(s: LqState, e: Event)
    requires Possible(s, e) && (s.errored ==> s.disposed) && OpenShape(s)
    ensures OpenShape(After(s, e))
  {
    if !After(s, e).disposed {
      forall i | 0 <= i < |After(s, e).iters| ensures i in After(s, e).drivers && !After(s, e).iters[i].ended {
        if i < |s.iters| { StepOnIter(s, e, i); }
      }
    }
  }

  lemma {:induction false} OpenShapeAlways(run: seq<LqState>, events: seq<Event>, n: nat)
    requires History(run, events) && n < |run|
    ensures OpenShape(run[n]) && (run[n].errored ==> run[n].disposed)
  {
    CancelAlways(run, events, n);
    if n != 0 {
      OpenShapeAlways(run, events, n - 1);
      OpenShapeKept(run[n - 1], events[n - 1]);
    }
  }

  // ---- who heard of the end and of an error ----------------------------------------------------------

  /** The query ends while iterator `i` exists, and not by its own `return`: it is still registered. */
  predicate HearsEnd(s: LqState, e: Event, i: nat) { Ends(s, e) && i < |s.iters| && e != ReturnCall(i) }

  predicate HearsError(s: LqState, e: Event, i: nat) { IsError(s, e) && i in s.drivers }

  ghost predicate RegisteredAtEnd(run: seq<LqState>, events: seq<Event>, n: nat, i: nat)
    requires n <= |events| <= |run|
  {
    exists m :: 0 <= m < n && HearsEnd(run[m], events[m], i)
  }

  ghost predicate ErrorReached(run: seq<LqState>, events: seq<Event>, n: nat, i: nat)
    requires n <= |events| <= |run|
  {
    exists m :: 0 <= m < n && HearsError(run[m], events[m], i)
  }

  /** In every run an iterator knows of the end if and only if it was registered when the query
      ended, and of an error if and only if one reached it. */
  lemma {:induction false} KnowsExactlyWhen(run: seq<LqState>, events: seq<Event>, n: nat, i: nat)
    requires History(run, events) && n < |run| && i < |run[n].iters|
    ensures run[n].iters[i].ended <==> RegisteredAtEnd(run, events, n, i)
    ensures run[n].iters[i].failWith.Some? <==> ErrorReached(run, events, n, i)
  {
    if n != 0 {
      var m := n - 1;
      LearnsExactlyWhen(run, events, m, i);
      if i < |run[m].iters| {
        KnowsExactlyWhen(run, events, m, i);
      } else {
        forall k | 0 <= k <= m ensures !HearsEnd(run[k], events[k], i) && !HearsError(run[k], events[k], i) {
          Grows(run, events, k, m);
          LqInvAlways(run, events, k);
        }
      }
    }
  }

  lemma LearnsExactlyWhen(run: seq<LqState>, events: seq<Event>, m: nat, i: nat)
    requires History(run, events) && m < |events| && i < |run[m + 1].iters|
    ensures i < |run[m].iters| ==>
              && (run[m + 1].iters[i].ended <==> run[m].iters[i].ended || HearsEnd(run[m], events[m], i))
              && (run[m + 1].iters[i].failWith.Some? <==> run[m].iters[i].failWith.Some? || HearsError(run[m], events[m], i))
    ensures i >= |run[m].iters| ==> !run[m + 1].iters[i].ended && run[m + 1].iters[i].failWith.None?
  {
    OpenShapeAlways(run, events, m);
    if i < |run[m].iters| {
      StepOnIter(run[m], events[m], i);
      Learns(run[m], events[m], i);
    } else {
      NewIter(run[m], events[m], i);
    }
  }

  lemma Learns(s: LqState, e: Event, i: nat)
    requires Possible(s, e) && OpenShape(s) && i < |s.iters|
    ensures IterAfter(s, e, i).ended <==> s.iters[i].ended || HearsEnd(s, e, i)
    ensures IterAfter(s, e, i).failWith.Some? <==> s.iters[i].failWith.Some? || HearsError(s, e, i)
  {
  }

  lemma NewIter(s: LqState, e: Event, i: nat)
    requires Possible(s, e) && i >= |s.iters| && i < |After(s, e).iters|
    ensures e.IterateCall? && !After(s, e).iters[i].ended && After(s, e).iters[i].failWith.None?
  {
    match e
    case Registered(id, initial) =>
      if !s.disposed { EnvelopeOver(s.(registration := Succeeded(id), native := true), initial); }
    case RegistrationRefused(m) => FailOver(s.(registration := Refused), m);
    case Emission(env) => EnvelopeOver(s, env);
    case _ =>
  }

  lemma FailOver(s: LqState, m: Text)
    ensures |AfterFail(s, m).iters| == |s.iters| && (AfterFail(s, m).disposed <==> s.disposed || !s.errored)
  {
  }

  lemma EnvelopeOver(s: LqState, env: LiveEnvelope)
    ensures |AfterEnvelope(s, env).iters| == |s.iters|
    ensures (s.errored ==> s.disposed) ==> (AfterEnvelope(s, env).disposed <==> s.disposed || !env.Snapshot?)
  {
    if env.RecomputeError? { FailOver(s, env.message); }
    if env.Malformed? { FailOver(s, CORRUPT); }
  }

  lemma IterCount(s: LqState, e: Event)
    requires Possible(s, e) && (s.errored ==> s.disposed)
    ensures |s.iters| <= |After(s, e).iters|
  {
    if s.iters != [] { StepOnIter(s, e, |s.iters| - 1); }
  }

  lemma {:induction false} Grows(run: seq<LqState>, events: seq<Event>, m: nat, n: nat)
    requires History(run, events) && m <= n < |run|
    ensures |run[m].iters| <= |run[n].iters|
    decreases n - m
  {
    if m < n {
      OpenShapeAlways(run, events, m);
      IterCount(run[m], events[m]);
      Grows(run, events, m + 1, n);
    }
  }

  // ---- the fate of a call ----------------------------------------------------------------------------

  ghost predicate HasResult(it: Iter, t: nat) { exists k :: 0 <= k < |it.results| && it.results[k].0 == t }

  /** Call `t` of iterator `i` has been settled. */
  ghost predicate Settled(s: LqState, i: nat, t: nat) { i < |s.iters| && HasResult(s.iters[i], t) }

  predicate AtOnce(it: Iter) { it.failWith.Some? || it.queue != [] || it.ended }

  /** Between the call at event `n` and event `m` there is no other call on the iterator, which
      would have taken its place. */
  ghost predicate StillNext(events: seq<Event>, n: nat, m: nat, i: nat)
    requires m <= |events|
  {
    forall k :: n < k < m ==> events[k] != NextCall(i)
  }

  ghost predicate AnswersAt(run: seq<LqState>, events: seq<Event>, n: nat, m: nat, i: nat)
    requires m < |events| && m < |run|
  {
    Reaches(run[m], events[m], i) && StillNext(events, n, m, i)
  }

  ghost predicate AnsweredBy(run: seq<LqState>, events: seq<Event>, n: nat, N: nat, i: nat)
    requires N <= |events| <= |run|
  {
    exists m :: n < m < N && AnswersAt(run, events, n, m, i)
  }

  /** A call that did not settle at once waits as long as nothing has reached the iterator and no
      other call has taken its place. */
  ghost predicate Fate(it: Iter, t: nat, answered: bool, still: bool) {
    t < it.tickets && (HasResult(it, t) <==> answered) && (it.pending == Json.Some(t) <==> !answered && still)
  }

  lemma CallWaits(it: Iter)
    requires Coherent(it) && !AtOnce(it)
    ensures Fate(it.Next(), it.tickets, false, true)
  {
  }

  lemma CallAtOnce(it: Iter)
    requires AtOnce(it)
    ensures HasResult(it.Next(), it.tickets)
  {
    var q := it.Next().results;
    assert q[|it.results|].0 == it.tickets;
  }

  lemma OtherCall(it: Iter, t: nat, answered: bool, still: bool)
    requires Coherent(it) && Fate(it, t, answered, still)
    ensures Fate(it.Next(), t, answered, false)
  {
    var it' := it.Next();
    assert it.results <= it'.results;
    if HasResult(it, t) {
      var k :| 0 <= k < |it.results| && it.results[k].0 == t;
      assert it'.results[k].0 == t;
    }
  }

  lemma HeardCall(it: Iter, it': Iter, t: nat, answered: bool, still: bool)
    requires Fate(it, t, answered, still) && Heard(it, it')
    ensures Fate(it', t, answered || still, still)
  {
    if HasResult(it, t) {
      var k :| 0 <= k < |it.results| && it.results[k].0 == t;
      assert it'.results[k].0 == t;
    }
    if it.pending == Json.Some(t) { assert it'.results[|it.results|].0 == t; }
    if HasResult(it', t) {
      var k :| 0 <= k < |it'.results| && it'.results[k].0 == t;
      if k < |it.results| { assert it.results[k].0 == t; }
    }
  }

  lemma FateStep(s: LqState, e: Event, i: nat, t: nat, answered: bool, still: bool)
    requires Possible(s, e) && LqInv(s) && i < |s.iters| && Fate(s.iters[i], t, answered, still)
    ensures i < |After(s, e).iters|
    ensures Fate(After(s, e).iters[i], t, answered || (Reaches(s, e, i) && still), still && e != NextCall(i))
  {
    StepOnIter(s, e, i);
    ReachesMeans(s, e, i);
    assert Fed(s, i);
    if e == NextCall(i) {
      OtherCall(s.iters[i], t, answered, still);
    } else if Reaches(s, e, i) {
      HeardCall(s.iters[i], IterAfter(s, e, i), t, answered, still);
    }
  }

  /** The ticket of the call made with event `n`. */
  function Ticket(run: seq<LqState>, n: nat, i: nat): nat
    requires n < |run| && i < |run[n].iters|
  {
    run[n].iters[i].tickets
  }

  lemma AnsweredGrows(run: seq<LqState>, events: seq<Event>, n: nat, m: nat, i: nat)
    requires m < |events| < |run| && n < m
    ensures var N := m + 1; AnsweredBy(run, events, n, N, i) <==> AnsweredBy(run, events, n, m, i) || AnswersAt(run, events, n, m, i)
  {
    if AnswersAt(run, events, n, m, i) { assert AnsweredBy(run, events, n, m + 1, i); }
  }

  lemma {:induction false} WaitingCallFate(run: seq<LqState>, events: seq<Event>, n: nat, N: nat, i: nat)
    requires History(run, events) && n < N <= |events| && events[n] == NextCall(i) && !AtOnce(run[n].iters[i])
    ensures i < |run[N].iters|
    ensures Fate(run[N].iters[i], Ticket(run, n, i), AnsweredBy(run, events, n, N, i), StillNext(events, n, N, i))
  {
    var m := N - 1;
    LqInvAlways(run, events, m);
    if m == n {
      assert Fed(run[n], i);
      CallWaits(run[n].iters[i]);
    } else {
      WaitingCallFate(run, events, n, m, i);
      FateStep(run[m], events[m], i, Ticket(run, n, i), AnsweredBy(run, events, n, m, i), StillNext(events, n, m, i));
      AnsweredGrows(run, events, n, m, i);
    }
  }

  lemma StepKeepsResult(s: LqState, e: Event, i: nat, t: nat)
    requires Possible(s, e) && (s.errored ==> s.disposed) && Settled(s, i, t)
    ensures Settled(After(s, e), i, t)
  {
    StepOnIter(s, e, i);
    ResultsGrow(s, e, i);
    var it, it' := s.iters[i], IterAfter(s, e, i);
    var k :| 0 <= k < |it.results| && it.results[k].0 == t;
    assert it'.results[k].0 == t;
  }

  lemma ResultsGrow(s: LqState, e: Event, i: nat)
    requires i < |s.iters|
    ensures s.iters[i].results <= IterAfter(s, e, i).results
  {
  }

  lemma {:induction false} SettledStays(run: seq<LqState>, events: seq<Event>, n: nat, N: nat, i: nat, t: nat)
    requires History(run, events) && n <= N < |run| && Settled(run[n], i, t)
    ensures Settled(run[N], i, t)
    decreases N - n
  {
    if n < N {
      OpenShapeAlways(run, events, n);
      StepKeepsResult(run[n], events[n], i, t);
      SettledStays(run, events, n + 1, N, i, t);
    }
  }

  /** In every run, a call settles if and only if there is something to tell it at once (an error,
      a queued snapshot, the end) or a snapshot, an error or the end reaches the iterator later,
      before another call has taken its place. */
  lemma CallSettlesExactlyWhen(run: seq<LqState>, events: seq<Event>, n: nat, N: nat, i: nat)
    requires History(run, events) && n < N <= |events| && events[n] == NextCall(i)
    ensures Settled(run[N], i, Ticket(run, n, i)) <==> AtOnce(run[n].iters[i]) || AnsweredBy(run, events, n, N, i)
  {
    if AtOnce(run[n].iters[i]) {
      CallAtOnce(run[n].iters[i]);
      SettledStays(run, events, n + 1, N, i, Ticket(run, n, i));
    } else {
      WaitingCallFate(run, events, n, N, i);
    }
  }

  // ---- after the end ---------------------------------------------------------------------------------------

  lemma {:induction false} StaysOver(run: seq<LqState>, events: seq<Event>, n: nat, m: nat)
    requires History(run, events) && n <= m < |run| && run[n].disposed
    ensures run[m].disposed
    decreases m - n
  {
    if n < m {
      LqInvAlways(run, events, n);
      EndIsFinal(run[n], events[n]);
      StaysOver(run, events, n + 1, m);
    }
  }

  /** Only errors reach an iterator of a query that is over. */
  lemma OnlyErrorsReach(run: seq<LqState>, events: seq<Event>, n: nat, N: nat, i: nat)
    requires History(run, events) && n < N <= |events| && run[n].disposed
    ensures forall m :: n <= m < N ==> (Reaches(run[m], events[m], i) <==> HearsError(run[m], events[m], i))
  {
    forall m | n <= m < N ensures Reaches(run[m], events[m], i) <==> HearsError(run[m], events[m], i) {
      StaysOver(run, events, n, m);
    }
  }

  /** Once the query is over, a call on an iterator with nothing left in its queue settles if and
      only if the iterator was still registered when the query ended, an error had reached it, or
      one does before another call takes its place. */
  lemma SettlesAfterEndExactlyWhen(run: seq<LqState>, events: seq<Event>, n: nat, N: nat, i: nat)
    requires History(run, events) && n < N <= |events| && events[n] == NextCall(i)
    requires run[n].disposed && run[n].iters[i].queue == []
    ensures Settled(run[N], i, Ticket(run, n, i))
            <==> || RegisteredAtEnd(run, events, n, i) || ErrorReached(run, events, n, i)
                 || exists m :: n < m < N && HearsError(run[m], events[m], i) && StillNext(events, n, m, i)
  {
    CallSettlesExactlyWhen(run, events, n, N, i);
    KnowsExactlyWhen(run, events, n, i);
    OnlyErrorsReach(run, events, n, N, i);
    if AnsweredBy(run, events, n, N, i) {
      var m :| n < m < N && AnswersAt(run, events, n, m, i);
      assert HearsError(run[m], events[m], i) && StillNext(events, n, m, i);
    }
    forall m | n < m < N && HearsError(run[m], events[m], i) && StillNext(events, n, m, i) ensures AnswersAt(run, events, n, m, i) { }
  }

  /** So the last call on an iterator settles if and only if the iterator was still registered when
      the query ended or an error reaches it at any time. */
  lemma LastCallSettlesExactlyWhen(run: seq<LqState>, events: seq<Event>, n: nat, N: nat, i: nat)
    requires History(run, events) && n < N <= |events| && events[n] == NextCall(i) && StillNext(events, n, N, i)
    requires run[n].disposed && run[n].iters[i].queue == []
    ensures Settled(run[N], i, Ticket(run, n, i)) <==> RegisteredAtEnd(run, events, n, i) || ErrorReached(run, events, N, i)
  {
    SettlesAfterEndExactlyWhen(run, events, n, N, i);
    if ErrorReached(run, events, N, i) {
      var m :| 0 <= m < N && HearsError(run[m], events[m], i);
      assert m >= n ==> m != n && StillNext(events, n, m, i);
    }
  }

  /** The end settles every call that still waits and whose iterator is registered: all of them,
      but for one on the iterator whose `return` ends the query. */
  lemma EndSettlesAll(run: seq<LqState>, events: seq<Event>, n: nat, m: nat, i: nat)
    requires History(run, events) && n < m < |events| && events[n] == NextCall(i) && Ends(run[m], events[m])
    requires !Settled(run[m], i, Ticket(run, n, i)) && StillNext(events, n, m, i)
    ensures Settled(run[m + 1], i, Ticket(run, n, i)) <==> events[m] != ReturnCall(i)
  {
    var N := m + 1;
    CallSettlesExactlyWhen(run, events, n, m, i);
    CallSettlesExactlyWhen(run, events, n, N, i);
    OpenShapeAlways(run, events, m);
    Grows(run, events, n, m);
    assert i in run[m].drivers;
    if AnsweredBy(run, events, n, N, i) {
      var k :| n < k < N && AnswersAt(run, events, n, k, i);
      assert k == m;
    }
    if events[m] != ReturnCall(i) { assert AnswersAt(run, events, n, m, i); }
  }

  // ---- the calls that hang -----------------------------------------------------------------------------------

  lemma OverAfter(s: LqState, e: Event)
    requires Possible(s, e) && (s.errored ==> s.disposed)
    ensures After(s, e).disposed <==> s.disposed || Ends(s, e)
  {
    match e
    case Registered(id, initial) =>
      if !s.disposed { EnvelopeOver(s.(registration := Succeeded(id), native := true), initial); }
    case RegistrationRefused(m) => FailOver(s.(registration := Refused), m);
    case Emission(env) => EnvelopeOver(s, env);
    case _ =>
  }

  /** A query ends at one event only. */
  lemma EndsOnce(run: seq<LqState>, events: seq<Event>, k: nat, m: nat)
    requires History(run, events) && k < m < |events| && !run[m].disposed
    ensures !Ends(run[k], events[k]) && !run[k].disposed
  {
    OpenShapeAlways(run, events, k);
    OverAfter(run[k], events[k]);
    if run[k + 1].disposed { StaysOver(run, events, k + 1, m); }
  }

  /** An iterator taken from a query that is over: its last call, once the queue is empty, settles
      if and only if an error reaches it. */
  lemma LateIteratorHangs(run: seq<LqState>, events: seq<Event>, m: nat, n: nat, N: nat, i: nat)
    requires History(run, events) && m <= n < N <= |events| && run[m].disposed && i >= |run[m].iters|
    requires events[n] == NextCall(i) && run[n].iters[i].queue == [] && StillNext(events, n, N, i)
    ensures Settled(run[N], i, Ticket(run, n, i)) <==> ErrorReached(run, events, N, i)
  {
    StaysOver(run, events, m, n);
    LastCallSettlesExactlyWhen(run, events, n, N, i);
    forall k | 0 <= k < n ensures !HearsEnd(run[k], events[k], i) {
      if k >= m { StaysOver(run, events, m, k); } else { Grows(run, events, k, m); }
    }
  }

  lemma NotRegisteredAgain(s: LqState, e: Event, i: nat)
    requires Possible(s, e) && i < |s.iters| && i !in s.drivers && (s.errored ==> s.disposed)
    ensures i < |After(s, e).iters| && i !in After(s, e).drivers
  {
    StepOnIter(s, e, i);
    if e.ReturnCall? { RemoveFacts(s.drivers, e.i); }
  }

  lemma {:induction false} StaysUnregistered(run: seq<LqState>, events: seq<Event>, m: nat, n: nat, i: nat)
    requires History(run, events) && m <= n < |run| && i < |run[m].iters| && i !in run[m].drivers
    ensures i !in run[n].drivers
    decreases n - m
  {
    if m < n {
      OpenShapeAlways(run, events, m);
      NotRegisteredAgain(run[m], events[m], i);
      StaysUnregistered(run, events, m + 1, n, i);
    }
  }

  /** After an iterator's `return` has ended the query, nothing reaches that iterator. */
  lemma ReturnedIsUnreachable(run: seq<LqState>, events: seq<Event>, m: nat, k: nat, i: nat)
    requires History(run, events) && m <= k < |events| && i < |run[m].iters|
    requires Ends(run[m], events[m]) && events[m] == ReturnCall(i)
    ensures !Reaches(run[k], events[k], i) && !HearsEnd(run[k], events[k], i) && !HearsError(run[k], events[k], i)
  {
    if m < k {
      OpenShapeAlways(run, events, m);
      StepOnIter(run[m], events[m], i);
      RemoveFacts(run[m].drivers, i);
      StaysUnregistered(run, events, m + 1, k, i);
      StaysOver(run, events, m + 1, k);
    }
  }

  /** No call on an iterator whose own `return` ended the query settles afterwards: neither one that
      was waiting nor, once the queue is empty, a later one. */
  lemma ReturnedIteratorHangs(run: seq<LqState>, events: seq<Event>, m: nat, n: nat, N: nat, i: nat)
    requires History(run, events) && m < N <= |events| && n < N && events[n] == NextCall(i)
    requires Ends(run[m], events[m]) && events[m] == ReturnCall(i) && i < |run[m].iters|
    requires if n < m then !Settled(run[m], i, Ticket(run, n, i)) else run[n].iters[i].queue == []
    ensures !Settled(run[N], i, Ticket(run, n, i))
  {
    forall k | m <= k < |events| ensures !Reaches(run[k], events[k], i) && !HearsEnd(run[k], events[k], i) && !HearsError(run[k], events[k], i) {
      ReturnedIsUnreachable(run, events, m, k, i);
    }
    CallSettlesExactlyWhen(run, events, n, N, i);
    if n < m {
      CallSettlesExactlyWhen(run, events, n, m, i);
    } else {
      KnowsExactlyWhen(run, events, n, i);
      forall k | 0 <= k < n ensures !HearsEnd(run[k], events[k], i) && !HearsError(run[k], events[k], i) {
        if k < m { EndsOnce(run, events, k, m); }
      }
    }
  }

  /** A waiting call that another call on the same iterator displaces never settles. */
  lemma DisplacedCallHangs(run: seq<LqState>, events: seq<Event>, n: nat, m: nat, N: nat, i: nat)
    requires History(run, events) && n < m < N <= |events| && events[n] == NextCall(i) && events[m] == NextCall(i)
    requires !Settled(run[m], i, Ticket(run, n, i))
    ensures !Settled(run[N], i, Ticket(run, n, i))
  {
    CallSettlesExactlyWhen(run, events, n, m, i);
    CallSettlesExactlyWhen(run, events, n, N, i);
    forall k | n < k < N ensures AnswersAt(run, events, n, k, i) ==> k < m { }
  }

  // ---- runs that end in a hanging call ---------------------------------------------------------------------------

  lemma {:induction false} SameStart(run: seq<LqState>, events: seq<Event>, run': seq<LqState>, events': seq<Event>, k: nat)
    requires History(run, events) && History(run', events') && events <= events' && k <= |events|
    ensures run'[k] == run[k]
  {
    if k != 0 { SameStart(run, events, run', events', k - 1); }
  }

  /** However the run goes on, the call made with event `n` never settles. */
  ghost predicate Hangs(run: seq<LqState>, events: seq<Event>, n: nat, i: nat)
    requires n < |run| && i < |run[n].iters|
  {
    forall run', events' :: History(run', events') && events <= events' ==> !Settled(run'[|events'|], i, Ticket(run, n, i))
  }

  lemma {:induction false} NoLateRefusal(run: seq<LqState>, events: seq<Event>, n: nat, m: nat)
    requires History(run, events) && n <= m < |run| && !run[n].registration.Unsettled?
    ensures !run[m].registration.Unsettled?
    decreases m - n
  {
    if n < m { NoLateRefusal(run, events, n + 1, m); }
  }

  /** Once the registration is settled no error is left to come, and no such call ever settles. */
  lemma LateCallNeverSettles(run: seq<LqState>, events: seq<Event>, m: nat, n: nat, N: nat, i: nat)
    requires History(run, events) && m <= n < N <= |events| && run[m].disposed && i >= |run[m].iters|
    requires !run[m].registration.Unsettled? && events[n] == NextCall(i) && run[n].iters[i].queue == []
    ensures !Settled(run[N], i, Ticket(run, n, i))
  {
    StaysOver(run, events, m, n);
    SettlesAfterEndExactlyWhen(run, events, n, N, i);
    forall k | 0 <= k < N ensures !HearsEnd(run[k], events[k], i) && !HearsError(run[k], events[k], i) {
      if k >= m {
        StaysOver(run, events, m, k);
        NoLateRefusal(run, events, m, k);
      } else {
        Grows(run, events, k, m);
        LqInvAlways(run, events, k);
      }
    }
  }

  lemma LateMeansHangs(run: seq<LqState>, events: seq<Event>, m: nat, n: nat, i: nat)
    requires History(run, events) && m <= n < |events| && run[m].disposed && i >= |run[m].iters|
    requires !run[m].registration.Unsettled? && events[n] == NextCall(i) && run[n].iters[i].queue == []
    ensures Hangs(run, events, n, i)
  {
    forall run', events' | History(run', events') && events <= events'
      ensures !Settled(run'[|events'|], i, Ticket(run, n, i))
    {
      SameStart(run, events, run', events', m);
      SameStart(run, events, run', events', n);
      LateCallNeverSettles(run', events', m, n, |events'|, i);
    }
  }

  lemma ReturnedMeansHangs(run: seq<LqState>, events: seq<Event>, n: nat, m: nat, i: nat)
    requires History(run, events) && n < m < |events| && events[n] == NextCall(i) && !Settled(run[m], i, Ticket(run, n, i))
    requires Ends(run[m], events[m]) && events[m] == ReturnCall(i) && i < |run[m].iters|
    ensures Hangs(run, events, n, i)
  {
    forall run', events' | History(run', events') && events <= events'
      ensures !Settled(run'[|events'|], i, Ticket(run, n, i))
    {
      SameStart(run, events, run', events', n);
      SameStart(run, events, run', events', m);
      ReturnedIteratorHangs(run', events', m, n, |events'|, i);
    }
  }

  lemma DisplacedMeansHangs(run: seq<LqState>, events: seq<Event>, n: nat, m: nat, i: nat)
    requires History(run, events) && n < m < |events| && events[n] == NextCall(i) && events[m] == NextCall(i)
    requires !Settled(run[m], i, Ticket(run, n, i))
    ensures Hangs(run, events, n, i)
  {
    forall run', events' | History(run', events') && events <= events'
      ensures !Settled(run'[|events'|], i, Ticket(run, n, i))
    {
      SameStart(run, events, run', events', n);
      SameStart(run, events, run', events', m);
      DisplacedCallHangs(run', events', n, m, |events'|, i);
    }
  }

  lemma Continue(run: seq<LqState>, events: seq<Event>, e: Event) returns (run': seq<LqState>, events': seq<Event>)
    requires History(run, events) && Possible(run[|events|], e)
    ensures run' == run + [After(run[|events|], e)] && events' == events + [e] && History(run', events')
  {
    run', events' := run + [After(run[|events|], e)], events + [e];
    forall n | 0 <= n < |events'| ensures Possible(run'[n], events'[n]) && run'[n + 1] == After(run'[n], events'[n]) {
      if n < |events| { assert run'[n] == run[n] && run'[n + 1] == run[n + 1] && events'[n] == events[n]; }
    }
  }

  /** Taken after the end: the second call on the iterator hangs; the first one got the old snapshot. */
  lemma LateCallHangs(id: Text, rows: Snap) returns (run: seq<LqState>, events: seq<Event>)
    ensures events == [Registered(id, Snapshot(rows)), DisposeCall, IterateCall, NextCall(0), NextCall(0)]
    ensures History(run, events) && |run[4].iters| == 1 && run[4].iters[0].results == [(0, Value(rows))]
    ensures Hangs(run, events, 4, 0)
  {
    run, events := OverRun(id, rows);
    run, events := Continue(run, events, IterateCall);
    run, events := Continue(run, events, NextCall(0));
    run, events := Continue(run, events, NextCall(0));
    LateMeansHangs(run, events, 2, 4, 0);
  }

  lemma OverRun(id: Text, rows: Snap) returns (run: seq<LqState>, events: seq<Event>)
    ensures events == [Registered(id, Snapshot(rows)), DisposeCall] && History(run, events)
    ensures run[2].disposed && run[2].iters == [] && run[2].registration.Succeeded? && run[2].received && run[2].value == rows
  {
    run, events := Continue([INITIAL], [], Registered(id, Snapshot(rows)));
    run, events := Continue(run, events, DisposeCall);
  }

  /** An iterator of an open query with its first call waiting. */
  lemma WaitingRun() returns (run: seq<LqState>, events: seq<Event>)
    ensures events == [IterateCall, NextCall(0)] && History(run, events)
    ensures |run[1].iters| == 1 && run[1].iters[0].tickets == 0
    ensures !run[2].disposed && |run[2].iters| == 1 && run[2].iters[0].results == []
  {
    run, events := Continue([INITIAL], [], IterateCall);
    run, events := Continue(run, events, NextCall(0));
  }

  /** Left by `return` with a call pending. */
  lemma ReturnedCallHangs() returns (run: seq<LqState>, events: seq<Event>)
    ensures events == [IterateCall, NextCall(0), ReturnCall(0)]
    ensures History(run, events) && |run[1].iters| == 1 && Hangs(run, events, 1, 0)
  {
    run, events := WaitingRun();
    run, events := Continue(run, events, ReturnCall(0));
    ReturnedMeansHangs(run, events, 1, 2, 0);
  }

  /** Displaced by a second call while the query is open. */
  lemma SecondCallHangsFirst() returns (run: seq<LqState>, events: seq<Event>)
    ensures events == [IterateCall, NextCall(0), NextCall(0)]
    ensures History(run, events) && |run[1].iters| == 1 && !run[3].disposed && Hangs(run, events, 1, 0)
  {
    run, events := WaitingRun();
    run, events := Continue(run, events, NextCall(0));
    DisplacedMeansHangs(run, events, 1, 2, 0);
  }
}
