/** The messages between a renderer and the host. */
module Wire {
  import opened Lex

  datatype Outcome = Success(value: Text) | Failure(kind: Text, message: Text)

  datatype Envelope =
    | Hello(clientId: Text, descriptor: Text)
    | HelloAck(clientId: Text, sessionId: Text)
    | Query(id: Text, collection: Text, op: Text, argsJson: Text, optionsJson: Text)
    | Subscribe(id: Text, subscriptionId: Text, collection: Text, filterJson: Text, optionsJson: Text)
    | SubscribeCancel(subscriptionId: Text)
    | Response(id: Text, outcome: Outcome)
    | SubscribeEmit(subscriptionId: Text, envelope: Text)
  {
    /** An operation the host answers with one response. */
    predicate Request() { Query? || Subscribe? }

    /** The correlation id, where there is one. */
    function Id(): Text { if Query? || Subscribe? || Response? then id else [] }
  }

  function Stamped(env: Envelope, id: Text): Envelope
    requires env.Request()
  {
    match env
    case Query(_, c, op, a, o) => Query(id, c, op, a, o)
    case Subscribe(_, sid, c, f, o) => Subscribe(id, sid, c, f, o)
  }
}

/** Insertion-ordered maps. */
module OrderedMap {
  import opened Lex

  type OMap<V> = seq<(Text, V)>

  function IndexOf<V>(m: OMap<V>, k: Text): (i: nat)
    ensures i <= |m| && (i < |m| ==> m[i].0 == k)
    ensures forall j :: 0 <= j < i ==> m[j].0 != k
  {
    if m == [] || m[0].0 == k then 0 else 1 + IndexOf(m[1..], k)
  }

  predicate Has<V>(m: OMap<V>, k: Text) { IndexOf(m, k) < |m| }

  function Get<V>(m: OMap<V>, k: Text): V
    requires Has(m, k)
  {
    m[IndexOf(m, k)].1
  }

  function Delete<V>(m: OMap<V>, k: Text): OMap<V> {
    var i := IndexOf(m, k);
    if i < |m| then m[..i] + m[i + 1..] else m
  }

  /** Replaces in place, or appends. */
  function Set<V>(m: OMap<V>, k: Text, v: V): OMap<V> {
    var i := IndexOf(m, k);
    if i < |m| then m[i := (k, v)] else m + [(k, v)]
  }
}

/** The renderer's dispatcher: one promise for each request, settled by the response that
    carries its id, by the end of the handshake, or by the closing of the transport. */
module Rpc {
  import opened Lex
  import opened Json
  import opened Wire
  import opened OrderedMap

  function HELLO(): Text { T("hello") }

  function FreshId(n: nat): Text { [114] + Digits(n) }

  lemma FreshIdInjective(m: nat, n: nat)
    ensures FreshId(m) == FreshId(n) ==> m == n
    ensures FreshId(m) != HELLO()
  {
    DigitsDenote(m);
    DigitsDenote(n);
    assert FreshId(m)[1..] == Digits(m) && FreshId(n)[1..] == Digits(n);
    assert FreshId(m)[0] == 114 && HELLO()[0] == 104;
  }

  datatype Settlement = Resolved(outcome: Outcome) | Acked(env: Envelope) | Rejected

  /** `settled` lists the calls that resolve or reject a promise, in order. Promises are numbered
      as they are made; `abandoned` are those whose expectation was replaced by a later one. */
  datatype RpcState = RpcState(
    pending: OMap<nat>, expecting: OMap<nat>, closed: bool, nextId: nat,
    promises: nat, settled: seq<(nat, Settlement)>, abandoned: seq<nat>, passed: seq<Envelope>)

  const INITIAL := RpcState([], [], false, 1, 0, [], [], [])

  /** A send that is refused at once makes no promise that could settle later. */
  predicate Sends(s: RpcState, env: Envelope) { !s.closed && env.Request() }

  function AfterSend(s: RpcState, env: Envelope): RpcState {
    if !Sends(s, env) then s
    else s.(pending := Set(s.pending, FreshId(s.nextId), s.promises), nextId := s.nextId + 1, promises := s.promises + 1)
  }

  function SendPosts(s: RpcState, env: Envelope): seq<Envelope> {
    if !Sends(s, env) then [] else [Stamped(env, FreshId(s.nextId))]
  }

  /** `expect` for the handshake: the slot is keyed by the type of the message sent. */
  function AfterExpect(s: RpcState): RpcState {
    if s.closed then s
    else s.(expecting := Set(s.expecting, HELLO(), s.promises), promises := s.promises + 1,
            abandoned := s.abandoned + (if Has(s.expecting, HELLO()) then [Get(s.expecting, HELLO())] else []))
  }

  function AfterDispatch(s: RpcState, env: Envelope): RpcState {
    if env.Response? && Has(s.pending, env.id) then
      s.(pending := Delete(s.pending, env.id), settled := s.settled + [(Get(s.pending, env.id), Resolved(env.outcome))])
    else if env.Response? && Has(s.expecting, env.id) then
      s.(expecting := Delete(s.expecting, env.id), settled := s.settled + [(Get(s.expecting, env.id), Rejected)])
    else if env.HelloAck? && Has(s.expecting, HELLO()) then
      s.(expecting := Delete(s.expecting, HELLO()), settled := s.settled + [(Get(s.expecting, HELLO()), Acked(env))])
    else s.(passed := s.passed + [env])
  }

  function RejectAll(m: OMap<nat>): (q: seq<(nat, Settlement)>)
    ensures |q| == |m|
  {
    seq(|m|, i requires 0 <= i < |m| => (m[i].1, Rejected))
  }

  function AfterClose(s: RpcState): RpcState {
    if s.closed then s
    else s.(closed := true, pending := [], expecting := [],
            settled := s.settled + RejectAll(s.pending) + RejectAll(s.expecting))
  }

  class RpcDispatcher {
    var pending: OMap<nat>
    var expecting: OMap<nat>
    var closed: bool
    var nextId: nat
    var promises: nat
    var settled: seq<(nat, Settlement)>
    var abandoned: seq<nat>
    var passed: seq<Envelope>
    var posted: seq<Envelope>

    function State(): RpcState
      reads this
    {
      RpcState(pending, expecting, closed, nextId, promises, settled, abandoned, passed)
    }

    constructor ()
      ensures State() == INITIAL && posted == []
    {
      pending, expecting, closed, nextId, promises := [], [], false, 1, 0;
      settled, abandoned, passed, posted := [], [], [], [];
    }

    /** The new promise, or none when the call is rejected at once. */
    method Send(env: Envelope) returns (promise: Option<nat>)
      modifies this
      ensures State() == AfterSend(old(State()), env)
      ensures posted == old(posted) + SendPosts(old(State()), env)
      ensures promise == if Sends(old(State()), env) then Some(old(promises)) else None
    {
      if closed || !env.Request() { return None; }
      var id := FreshId(nextId);
      nextId := nextId + 1;
      var p := promises;
      promises := promises + 1;
      pending := Set(pending, id, p);
      posted := posted + [Stamped(env, id)];
      return Some(p);
    }

    method ExpectAck(hello: Envelope) returns (promise: Option<nat>)
      requires hello.Hello?
      modifies this
      ensures State() == AfterExpect(old(State()))
      ensures posted == old(posted) + if old(closed) then [] else [hello]
      ensures promise == if old(closed) then None else Some(old(promises))
    {
      if closed { return None; }
      if Has(expecting, HELLO()) { abandoned := abandoned + [Get(expecting, HELLO())]; }
      expecting := Set(expecting, HELLO(), promises);
      promises := promises + 1;
      posted := posted + [hello];
      return Some(promises - 1);
    }

    method PostCancel(env: Envelope)
      modifies this`posted
      ensures posted == old(posted) + if closed then [] else [env]
    {
      if closed { return; }
      posted := posted + [env];
    }

    method Dispatch(env: Envelope)
      modifies this
      ensures State() == AfterDispatch(old(State()), env) && posted == old(posted)
      ensures if env.Response? && Has(old(pending), env.id) then
                settled == old(settled) + [(Get(old(pending), env.id), Resolved(env.outcome))]
              else if env.Response? && Has(old(expecting), env.id) then
                settled == old(settled) + [(Get(old(expecting), env.id), Rejected)]
              else if env.HelloAck? && Has(old(expecting), HELLO()) then
                settled == old(settled) + [(Get(old(expecting), HELLO()), Acked(env))]
              else settled == old(settled) && passed == old(passed) + [env]
    {
      if env.Response? {
        if Has(pending, env.id) {
          var p := Get(pending, env.id);
          pending := OrderedMap.Delete(pending, env.id);
          settled := settled + [(p, Resolved(env.outcome))];
          return;
        }
        if Has(expecting, env.id) {
          var p := Get(expecting, env.id);
          expecting := OrderedMap.Delete(expecting, env.id);
          settled := settled + [(p, Rejected)];
          return;
        }
      } else if env.HelloAck? {
        if Has(expecting, HELLO()) {
          var p := Get(expecting, HELLO());
          expecting := OrderedMap.Delete(expecting, HELLO());
          settled := settled + [(p, Acked(env))];
          return;
        }
      }
      passed := passed + [env];
    }

    method OnClose()
      modifies this
      ensures State() == AfterClose(old(State())) && posted == old(posted)
      ensures closed && old(settled) <= settled
      ensures |settled| == |old(settled)| + if old(closed) then 0 else |old(pending)| + |old(expecting)|
      ensures forall k :: |old(settled)| <= k < |settled| ==> settled[k].1 == Rejected
    {
      if closed { return; }
      closed := true;
      for i := 0 to |pending|
        invariant closed && pending == old(pending) && expecting == old(expecting) && nextId == old(nextId)
        invariant settled == old(settled) + RejectAll(pending)[..i]
        invariant promises == old(promises) && abandoned == old(abandoned) && passed == old(passed) && posted == old(posted)
      {
        settled := settled + [(pending[i].1, Rejected)];
      }
      assert RejectAll(pending)[..|pending|] == RejectAll(pending);
      pending := [];
      for i := 0 to |expecting|
        invariant closed && pending == [] && expecting == old(expecting) && nextId == old(nextId)
        invariant settled == old(settled) + RejectAll(old(pending)) + RejectAll(expecting)[..i]
        invariant promises == old(promises) && abandoned == old(abandoned) && passed == old(passed) && posted == old(posted)
      {
        settled := settled + [(expecting[i].1, Rejected)];
      }
      assert RejectAll(expecting)[..|expecting|] == RejectAll(expecting);
      expecting := [];
    }
  }

  // ---- every promise is accounted for -----------------------------------------------------------

  function Slots(m: OMap<nat>): multiset<nat> { multiset(seq(|m|, i requires 0 <= i < |m| => m[i].1)) }

  function SettledSeq(q: seq<(nat, Settlement)>): (r: seq<nat>)
    ensures |r| == |q| && forall i :: 0 <= i < |q| ==> r[i] == q[i].0
  {
    seq(|q|, i requires 0 <= i < |q| => q[i].0)
  }

  function SettledOnes(q: seq<(nat, Settlement)>): multiset<nat> { multiset(SettledSeq(q)) }

  function Numbers(n: nat): multiset<nat> { multiset(seq(n, i => i)) }

  /** Each promise ever made is, exactly once, waiting, settled or abandoned. */
  predicate Ledger(s: RpcState) {
    Slots(s.pending) + Slots(s.expecting) + SettledOnes(s.settled) + multiset(s.abandoned) == Numbers(s.promises)
  }

  /** Pending ids were issued earlier; a closed dispatcher waits for nothing. */
  ghost predicate Sound(s: RpcState) {
    && Ledger(s)
    && (forall i :: 0 <= i < |s.pending| ==> Issued(s.pending[i].0, s.nextId))
    && (s.closed ==> s.pending == [] && s.expecting == [])
  }

  ghost predicate Issued(id: Text, next: nat) { exists n: nat :: n < next && id == FreshId(n) }

  lemma SeqAppend<X>(q: seq<X>, x: X, r: seq<X>)
    requires r == q + [x]
    ensures multiset(r) == multiset(q) + multiset{x}
  {
  }

  lemma SlotsAppend(m: OMap<nat>, k: Text, p: nat)
    ensures Slots(m + [(k, p)]) == Slots(m) + multiset{p}
  {
    var q := seq(|m|, i requires 0 <= i < |m| => m[i].1);
    assert seq(|m| + 1, i requires 0 <= i < |m| + 1 => (m + [(k, p)])[i].1) == q + [p];
  }

  lemma SlotsDelete(m: OMap<nat>, i: nat)
    requires i < |m|
    ensures Slots(m) == Slots(m[..i] + m[i + 1..]) + multiset{m[i].1}
  {
    var q := seq(|m|, j requires 0 <= j < |m| => m[j].1);
    var d := m[..i] + m[i + 1..];
    WithoutOne(q, i);
    assert seq(|d|, j requires 0 <= j < |d| => d[j].1) == q[..i] + q[i + 1..];
  }

  lemma WithoutOne(q: seq<nat>, i: nat)
    requires i < |q|
    ensures multiset(q) == multiset(q[..i] + q[i + 1..]) + multiset{q[i]}
  {
    assert q == q[..i] + [q[i]] + q[i + 1..];
  }

  lemma SlotsReplace(m: OMap<nat>, i: nat, k: Text, p: nat)
    requires i < |m|
    ensures Slots(m[i := (k, p)]) + multiset{m[i].1} == Slots(m) + multiset{p}
  {
    var m' := m[i := (k, p)];
    assert m'[..i] == m[..i] && m'[i + 1..] == m[i + 1..];
    SlotsDelete(m, i);
    SlotsDelete(m', i);
  }

  lemma SettledAppend(q: seq<(nat, Settlement)>, p: nat, x: Settlement)
    ensures SettledOnes(q + [(p, x)]) == SettledOnes(q) + multiset{p}
  {
    assert SettledSeq(q + [(p, x)]) == SettledSeq(q) + [p];
  }

  lemma SettledAll(q: seq<(nat, Settlement)>, m: OMap<nat>)
    ensures SettledOnes(q + RejectAll(m)) == SettledOnes(q) + Slots(m)
  {
    assert SettledSeq(q + RejectAll(m)) == SettledSeq(q) + seq(|m|, i requires 0 <= i < |m| => m[i].1);
  }

  lemma NumbersNext(n: nat)
    ensures Numbers(n + 1) == Numbers(n) + multiset{n}
  {
    assert seq(n + 1, i => i) == seq(n, i => i) + [n];
  }

  lemma {:induction false} NumbersOnce(n: nat, p: nat)
    ensures Numbers(n)[p] == if p < n then 1 else 0
  {
    if n > 0 {
      NumbersOnce(n - 1, p);
      NumbersNext(n - 1);
    }
  }

  /** A new promise enters what waits; the rest of the account stays. */
  lemma Entered(waiting: multiset<nat>, waiting': multiset<nat>, rest: multiset<nat>, n: nat)
    requires waiting + rest == Numbers(n) && waiting' == waiting + multiset{n}
    ensures waiting' + rest == Numbers(n + 1)
  {
    NumbersNext(n);
  }

  lemma SendSound(s: RpcState, env: Envelope)
    requires Sound(s)
    ensures Sound(AfterSend(s, env))
    ensures Sends(s, env) ==> AfterSend(s, env).pending == s.pending + [(FreshId(s.nextId), s.promises)]
  {
    if Sends(s, env) {
      FreshIsNew(s);
      SendLedger(s, env);
      SentIsIssued(s.pending, s.nextId, s.promises);
    }
  }

  lemma FreshIsNew(s: RpcState)
    requires Sound(s)
    ensures !Has(s.pending, FreshId(s.nextId))
  {
    var id := FreshId(s.nextId);
    if Has(s.pending, id) {
      assert Issued(s.pending[IndexOf(s.pending, id)].0, s.nextId);
      var n: nat :| n < s.nextId && id == FreshId(n);
      FreshIdInjective(n, s.nextId);
    }
  }

  lemma SendLedger(s: RpcState, env: Envelope)
    requires Ledger(s) && Sends(s, env) && !Has(s.pending, FreshId(s.nextId))
    ensures Ledger(AfterSend(s, env))
  {
    var rest := Slots(s.expecting) + SettledOnes(s.settled) + multiset(s.abandoned);
    SlotsAppend(s.pending, FreshId(s.nextId), s.promises);
    assert Slots(s.pending) + rest == Numbers(s.promises);
    Entered(Slots(s.pending), Slots(AfterSend(s, env).pending), rest, s.promises);
  }

  lemma SentIsIssued(m: OMap<nat>, next: nat, p: nat)
    requires forall i :: 0 <= i < |m| ==> Issued(m[i].0, next)
    ensures var m', next' := m + [(FreshId(next), p)], next + 1; forall i :: 0 <= i < |m'| ==> Issued(m'[i].0, next')
  {
    var m', next' := m + [(FreshId(next), p)], next + 1;
    forall i | 0 <= i < |m'| ensures Issued(m'[i].0, next') {
      if i < |m| {
        assert Issued(m[i].0, next);
        var n: nat :| n < next && m[i].0 == FreshId(n);
      }
    }
  }

  /** One promise leaves `a` for `b`. */
  lemma Moved(a: multiset<nat>, a': multiset<nat>, b: multiset<nat>, b': multiset<nat>, rest: multiset<nat>, p: nat)
    requires a == a' + multiset{p} && b' == b + multiset{p}
    ensures a' + b' + rest == a + b + rest
  {
  }

  /** One promise replaces another, which is abandoned. */
  lemma Replaced(a: multiset<nat>, a': multiset<nat>, b: multiset<nat>, b': multiset<nat>, p: nat, q: nat)
    requires a' + multiset{p} == a + multiset{q} && b' == b + multiset{p}
    ensures a' + b' == a + b + multiset{q}
  {
    assert a' + b' == a' + multiset{p} + b;
  }

  lemma ExpectLedger(s: RpcState)
    requires Ledger(s) && !s.closed
    ensures Ledger(AfterExpect(s))
  {
    var s' := AfterExpect(s);
    var rest := Slots(s.pending) + SettledOnes(s.settled);
    ExpectedSlots(s);
    assert Slots(s.expecting) + multiset(s.abandoned) + rest == Numbers(s.promises);
    Entered(Slots(s.expecting) + multiset(s.abandoned), Slots(s'.expecting) + multiset(s'.abandoned), rest, s.promises);
  }

  lemma ExpectedSlots(s: RpcState)
    requires !s.closed
    ensures var s' := AfterExpect(s);
            Slots(s'.expecting) + multiset(s'.abandoned) == Slots(s.expecting) + multiset(s.abandoned) + multiset{s.promises}
  {
    var s', i := AfterExpect(s), IndexOf(s.expecting, HELLO());
    if i < |s.expecting| {
      SlotsReplace(s.expecting, i, HELLO(), s.promises);
      SeqAppend(s.abandoned, s.expecting[i].1, s'.abandoned);
      Replaced(Slots(s.expecting), Slots(s'.expecting), multiset(s.abandoned), multiset(s'.abandoned), s.expecting[i].1, s.promises);
    } else {
      SlotsAppend(s.expecting, HELLO(), s.promises);
      assert s'.abandoned == s.abandoned;
    }
  }

  /** The rest of soundness speaks of the pending ids and of a closed dispatcher only. */
  lemma SamePending(s: RpcState, s': RpcState)
    requires Sound(s) && Ledger(s') && s'.pending == s.pending && s'.nextId == s.nextId
    requires s'.closed ==> s.closed && s'.expecting == []
    ensures Sound(s')
  {
  }

  lemma ExpectSound(s: RpcState)
    requires Sound(s)
    ensures Sound(AfterExpect(s))
  {
    if !s.closed {
      ExpectLedger(s);
      SamePending(s, AfterExpect(s));
    }
  }

  lemma SlotsWithout(m: OMap<nat>, id: Text)
    requires Has(m, id)
    ensures Slots(m) == Slots(Delete(m, id)) + multiset{Get(m, id)}
  {
    SlotsDelete(m, IndexOf(m, id));
  }

  lemma ResponseLedger(s: RpcState, id: Text, x: Settlement)
    requires Ledger(s) && Has(s.pending, id)
    ensures Ledger(s.(pending := Delete(s.pending, id), settled := s.settled + [(Get(s.pending, id), x)]))
  {
    var m, p := Delete(s.pending, id), Get(s.pending, id);
    SlotsWithout(s.pending, id);
    SettledAppend(s.settled, p, x);
    Moved(Slots(s.pending), Slots(m), SettledOnes(s.settled), SettledOnes(s.settled + [(p, x)]),
          Slots(s.expecting) + multiset(s.abandoned), p);
  }

  lemma ExpectationLedger(s: RpcState, id: Text, x: Settlement)
    requires Ledger(s) && Has(s.expecting, id)
    ensures Ledger(s.(expecting := Delete(s.expecting, id), settled := s.settled + [(Get(s.expecting, id), x)]))
  {
    var m, p := Delete(s.expecting, id), Get(s.expecting, id);
    SlotsWithout(s.expecting, id);
    SettledAppend(s.settled, p, x);
    Moved(Slots(s.expecting), Slots(m), SettledOnes(s.settled), SettledOnes(s.settled + [(p, x)]),
          Slots(s.pending) + multiset(s.abandoned), p);
  }

  lemma ResponseSound(s: RpcState, id: Text, x: Settlement)
    requires Sound(s) && Has(s.pending, id)
    ensures Sound(s.(pending := Delete(s.pending, id), settled := s.settled + [(Get(s.pending, id), x)]))
  {
    ResponseLedger(s, id, x);
    DeleteKeepsIssued(s.pending, id, s.nextId);
  }

  lemma DeleteKeepsIssued(m: OMap<nat>, id: Text, next: nat)
    requires forall j :: 0 <= j < |m| ==> Issued(m[j].0, next)
    ensures var m' := Delete(m, id); forall j :: 0 <= j < |m'| ==> Issued(m'[j].0, next)
  {
  }

  lemma ExpectationSound(s: RpcState, id: Text, x: Settlement)
    requires Sound(s) && Has(s.expecting, id)
    ensures Sound(s.(expecting := Delete(s.expecting, id), settled := s.settled + [(Get(s.expecting, id), x)]))
  {
    ExpectationLedger(s, id, x);
    SamePending(s, s.(expecting := Delete(s.expecting, id), settled := s.settled + [(Get(s.expecting, id), x)]));
  }

  lemma DispatchSound(s: RpcState, env: Envelope)
    requires Sound(s)
    ensures Sound(AfterDispatch(s, env))
  {
    if env.Response? && Has(s.pending, env.id) {
      ResponseSound(s, env.id, Resolved(env.outcome));
    } else if env.Response? && Has(s.expecting, env.id) {
      ExpectationSound(s, env.id, Rejected);
    } else if env.HelloAck? && Has(s.expecting, HELLO()) {
      ExpectationSound(s, HELLO(), Acked(env));
    }
  }

  lemma CloseSound(s: RpcState)
    requires Sound(s)
    ensures Sound(AfterClose(s))
  {
    SettledAll(s.settled, s.pending);
    SettledAll(s.settled + RejectAll(s.pending), s.expecting);
  }

  /** No promise is settled twice, and none that is settled still waits. */
  lemma SettledOnce(s: RpcState, i: nat, j: nat)
    requires Sound(s) && i < j < |s.settled|
    ensures s.settled[i].0 != s.settled[j].0
  {
    var q := SettledSeq(s.settled);
    NumbersOnce(s.promises, q[i]);
    assert multiset(q) <= Numbers(s.promises);
    if q[i] == q[j] { CountedTwice(q, i, j); }
  }

  lemma CountedTwice<X>(q: seq<X>, i: nat, j: nat)
    requires i < j < |q| && q[i] == q[j]
    ensures multiset(q)[q[i]] >= 2
  {
    assert q == q[..j] + q[j..];
    assert q[..j][i] == q[i] && q[j..][0] == q[i];
    assert q[i] in q[..j] && q[i] in q[j..];
  }

  /** Once closed, nothing settles any more, whatever still arrives. */
  lemma NothingAfterClose(s: RpcState, env: Envelope)
    requires Sound(s) && s.closed
    ensures AfterDispatch(s, env).settled == s.settled && AfterSend(s, env) == s && AfterExpect(s) == s && AfterClose(s) == s
  {
  }
}
