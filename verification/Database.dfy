/** The database handle: one write transaction at a time, commit or abort, then notify. */
module Database {
  import opened Lex
  import opened Json
  import opened Storage

  type CommitEvent = seq<DocChange>

  /** The distinct collections a commit touched. */
  function TouchedCollections(ev: CommitEvent): set<Text> {
    set c | c in ev :: c.collection
  }

  /** Observers in registration order. `delivered` records every `on_commit` call made. */
  class Notifier {
    var slots: seq<nat>
    var nextId: nat
    var delivered: seq<(nat, CommitEvent)>

    ghost predicate Valid()
      reads this
    {
      && (forall i :: 0 <= i < |slots| ==> slots[i] < nextId)
      && (forall i, j :: 0 <= i < j < |slots| ==> slots[i] < slots[j])
    }

    constructor ()
      ensures Valid() && slots == [] && delivered == []
    {
      slots, nextId, delivered := [], 0, [];
    }

    method AddObserver() returns (id: nat)
      requires Valid()
      modifies this`slots, this`nextId
      ensures Valid() && slots == old(slots) + [id] && id !in old(slots)
    {
      id := nextId;
      nextId := nextId + 1;
      slots := slots + [id];
    }

    /** Dropping the handle keeps every other observer, in order. */
    method RemoveObserver(id: nat)
      requires Valid()
      modifies this`slots
      ensures Valid() && slots == Without(old(slots), id)
    {
      WithoutFacts(slots, id);
      assert forall i :: 0 <= i < |Without(slots, id)| ==> Without(slots, id)[i] in Without(slots, id);
      slots := Without(slots, id);
    }

    /** Each registered observer is called exactly once, in registration order. */
    method Dispatch(ev: CommitEvent)
      modifies this`delivered
      ensures delivered == old(delivered) + Deliveries(slots, ev)
      ensures |delivered| == |old(delivered)| + |slots|
      ensures forall i :: 0 <= i < |slots| ==> delivered[|old(delivered)| + i] == (slots[i], ev)
    {
      var observers := slots;
      for i := 0 to |observers|
        invariant delivered == old(delivered) + Deliveries(observers, ev)[..i]
      {
        delivered := delivered + [(observers[i], ev)];
      }
    }
  }

  function Deliveries(slots: seq<nat>, ev: CommitEvent): seq<(nat, CommitEvent)> {
    seq(|slots|, i requires 0 <= i < |slots| => (slots[i], ev))
  }

  /** A commit that touched nothing is not announced. */
  function Announced(slots: seq<nat>, touched: seq<DocChange>): seq<(nat, CommitEvent)> {
    if touched == [] then [] else Deliveries(slots, touched)
  }

  /** `retain`: everything but `id`. */
  function Without(q: seq<nat>, id: nat): seq<nat> {
    if q == [] then [] else (if q[0] == id then [] else [q[0]]) + Without(q[1..], id)
  }

  lemma {:induction false} WithoutFacts(q: seq<nat>, id: nat)
    requires forall i, j :: 0 <= i < j < |q| ==> q[i] < q[j]
    ensures forall x :: x in Without(q, id) <==> x in q && x != id
    ensures forall i, j :: 0 <= i < j < |Without(q, id)| ==> Without(q, id)[i] < Without(q, id)[j]
  {
    if q != [] {
      WithoutFacts(q[1..], id);
      assert q == [q[0]] + q[1..];
      var r := Without(q[1..], id);
      forall i | 0 <= i < |r| ensures q[0] < r[i] { assert r[i] in q[1..]; }
    }
  }

  class Db<V> {
    var committed: Tables<V>
    const notifier: Notifier

    constructor (initial: Tables<V>)
      ensures committed == initial && fresh(notifier) && notifier.Valid() && notifier.delivered == []
    {
      committed := initial;
      notifier := new Notifier();
    }

    /** The tail of `write`: the closure has run on `tx` with the given outcome. A commit
        installs the view and dispatches its changes if there are any; an error leaves the
        committed tables as they were and dispatches nothing. */
    method Finish<R>(tx: WriteTx<V>, outcome: Result<R>) returns (r: Result<R>)
      modifies this`committed, notifier`delivered, tx`touched
      ensures r == outcome
      ensures outcome.Ok? ==>
                committed == old(tx.State().tables)
                && notifier.delivered == old(notifier.delivered) + Announced(old(notifier.slots), old(tx.touched))
                && (old(tx.touched) == [] ==> notifier.delivered == old(notifier.delivered))
                && (old(tx.touched) != [] ==>
                      notifier.delivered == old(notifier.delivered) + Deliveries(old(notifier.slots), old(tx.touched)))
      ensures outcome.Err? ==> committed == old(committed) && notifier.delivered == old(notifier.delivered)
    {
      var touched := tx.TakeTouched();
      if outcome.Ok? {
        committed := Tables(tx.table, tx.indexTable);
        if touched != [] { notifier.Dispatch(touched); }
      }
      return outcome;
    }
  }
}
