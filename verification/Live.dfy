/** The shared state of the live-query engine and its critical sections. */
module Live {
  import opened Lex
  import opened Json
  import opened Query
  import opened Database

  datatype LiveSub = LiveSub(collection: Text, filter: Value, options: QueryOptions, dirty: bool)

  type Subs = map<nat, LiveSub>

  /** One dirty subscription taken out for recomputation. */
  datatype WorkItem = WorkItem(id: nat, collection: Text, filter: Value, options: QueryOptions)

  function ItemOf(id: nat, s: LiveSub): WorkItem { WorkItem(id, s.collection, s.filter, s.options) }

  function MarkOne(s: LiveSub, touched: set<Text>): LiveSub {
    if s.collection in touched then s.(dirty := true) else s
  }

  /** Every subscription on a touched collection becomes dirty, no other changes. */
  function Marked(subs: Subs, touched: set<Text>): Subs {
    map id | id in subs :: MarkOne(subs[id], touched)
  }

  predicate AnyMarked(subs: Subs, touched: set<Text>) {
    exists id :: id in subs && subs[id].collection in touched
  }

  function DirtyIds(subs: Subs): set<nat> {
    set id | id in subs && subs[id].dirty
  }

  function AllClean(subs: Subs): Subs {
    map id | id in subs :: subs[id].(dirty := false)
  }

  /** A list of all dirty subscriptions, each once, in some order. */
  ghost predicate ListsDirty(work: seq<WorkItem>, subs: Subs) {
    && (forall i :: 0 <= i < |work| ==> work[i].id in DirtyIds(subs) && work[i] == ItemOf(work[i].id, subs[work[i].id]))
    && (forall id :: id in DirtyIds(subs) ==> exists i :: 0 <= i < |work| && work[i].id == id)
    && (forall i, j :: 0 <= i < j < |work| ==> work[i].id != work[j].id)
  }

  /** The dirty subscriptions outside `todo` are listed, once each. */
  ghost predicate Listed(work: seq<WorkItem>, subs: Subs, todo: set<nat>) {
    && (forall i :: 0 <= i < |work| ==> work[i].id in DirtyIds(subs) && work[i].id !in todo && work[i] == ItemOf(work[i].id, subs[work[i].id]))
    && (forall id :: id in DirtyIds(subs) && id !in todo ==> exists i :: 0 <= i < |work| && work[i].id == id)
    && (forall i, j :: 0 <= i < j < |work| ==> work[i].id != work[j].id)
  }

  lemma ListedMore(work: seq<WorkItem>, subs: Subs, todo: set<nat>, id: nat)
    requires Listed(work, subs, todo) && id in todo && id in subs
    ensures Listed(if subs[id].dirty then work + [ItemOf(id, subs[id])] else work, subs, todo - {id})
  {
    if subs[id].dirty {
      var work' := work + [ItemOf(id, subs[id])];
      forall x | x in DirtyIds(subs) && x !in todo - {id} ensures exists i :: 0 <= i < |work'| && work'[i].id == x {
        if x == id {
          assert work'[|work|].id == id;
        } else {
          var i :| 0 <= i < |work| && work[i].id == x;
          assert work'[i].id == x;
        }
      }
    }
  }

  /** The items whose sinks are open. */
  function OpenItems(work: seq<WorkItem>, closed: set<nat>): seq<WorkItem> {
    if work == [] then [] else
      var last := work[|work| - 1];
      OpenItems(work[..|work| - 1], closed) + (if last.id in closed then [] else [last])
  }

  class LiveShared {
    var subs: Subs
    var wake: bool
    var shutdown: bool
    var nextId: nat

    constructor ()
      ensures subs == map[] && !wake && !shutdown && nextId == 0
    {
      subs, wake, shutdown, nextId := map[], false, false, 0;
    }

    /** `on_commit` under the `subs` lock: marks the touched subscriptions and tells whether the
        worker has to be woken. */
    method MarkTouched(ev: CommitEvent) returns (any: bool)
      modifies this`subs
      ensures subs == Marked(old(subs), TouchedCollections(ev))
      ensures any <==> AnyMarked(old(subs), TouchedCollections(ev))
    {
      var touched := TouchedCollections(ev);
      any := false;
      var todo := subs.Keys;
      while todo != {}
        invariant todo <= subs.Keys == old(subs).Keys
        invariant forall id :: id in subs ==> subs[id] == if id in todo then old(subs)[id] else MarkOne(old(subs)[id], touched)
        invariant any <==> exists id :: id in subs && id !in todo && old(subs)[id].collection in touched
        decreases todo
      {
        var id :| id in todo;
        if subs[id].collection in touched {
          subs := subs[id := subs[id].(dirty := true)];
          any := true;
        }
        todo := todo - {id};
      }
    }

    method WakeWorker()
      modifies this`wake
      ensures wake
    {
      wake := true;
    }

    /** The worker's wait: it returns once woken or shutting down, with the flag cleared. */
    method ClearWake()
      requires wake || shutdown
      modifies this`wake
      ensures !wake
    {
      wake := false;
    }

    /** The worker's snapshot under the `subs` lock: takes every dirty subscription and clears its
        mark. */
    method TakeDirty() returns (work: seq<WorkItem>)
      modifies this`subs
      ensures ListsDirty(work, old(subs))
      ensures subs == AllClean(old(subs))
    {
      work := [];
      var todo := subs.Keys;
      ghost var before := subs;
      while todo != {}
        invariant todo <= subs.Keys == old(subs).Keys
        invariant forall id :: id in subs ==> subs[id] == if id in todo then old(subs)[id] else old(subs)[id].(dirty := false)
        invariant Listed(work, before, todo)
        decreases todo
      {
        var id :| id in todo;
        ListedMore(work, before, todo, id);
        if subs[id].dirty {
          work := work + [ItemOf(id, subs[id])];
          subs := subs[id := subs[id].(dirty := false)];
        }
        todo := todo - {id};
      }
    }

    method Contains(id: nat) returns (b: bool)
      ensures b <==> id in subs
    {
      b := id in subs;
    }

    /** The closed subscriptions met during a pass are dropped in one critical section. */
    method RemoveDead(dead: set<nat>)
      modifies this`subs
      ensures subs == old(subs) - dead
    {
      var todo := dead;
      while todo != {}
        invariant todo <= dead && subs == old(subs) - (dead - todo)
        decreases todo
      {
        var id :| id in todo;
        subs := subs - {id};
        todo := todo - {id};
      }
    }

    method NextId() returns (id: nat)
      modifies this`nextId
      ensures id == old(nextId) && nextId == old(nextId) + 1
    {
      id := nextId;
      nextId := nextId + 1;
    }

    method InsertSub(id: nat, collection: Text, filter: Value, options: QueryOptions)
      modifies this`subs
      ensures subs == old(subs)[id := LiveSub(collection, filter, options, false)]
    {
      subs := subs[id := LiveSub(collection, filter, options, false)];
    }

    method Cancel(id: nat)
      modifies this`subs
      ensures subs == old(subs) - {id}
    {
      subs := subs - {id};
    }

    // The procedures of one thread when no other comes in between. `LiveMachine` runs the same
    // critical sections in every interleaving.

    method OnCommit(ev: CommitEvent)
      modifies this`subs, this`wake
      ensures subs == Marked(old(subs), TouchedCollections(ev))
      ensures wake == (old(wake) || AnyMarked(old(subs), TouchedCollections(ev)))
      ensures subs.Keys == old(subs).Keys
      ensures forall id :: id in subs ==>
                subs[id] == old(subs)[id].(dirty := old(subs)[id].dirty || exists ch :: ch in ev && ch.collection == old(subs)[id].collection)
      ensures wake <==> old(wake) || exists id, ch :: id in subs && ch in ev && ch.collection == subs[id].collection
    {
      var any := MarkTouched(ev);
      if any { WakeWorker(); }
    }

    /** The initial snapshot has been computed by the caller. */
    method Register(collection: Text, filter: Value, options: QueryOptions) returns (id: nat)
      modifies this`subs, this`nextId
      ensures id == old(nextId) && nextId == old(nextId) + 1
      ensures subs == old(subs)[id := LiveSub(collection, filter, options, false)]
    {
      id := NextId();
      InsertSub(id, collection, filter, options);
    }

    /** The lock-free part of a pass: nothing is removed meanwhile. */
    method RecomputeAll(work: seq<WorkItem>, closed: set<nat>) returns (emitted: seq<WorkItem>, dead: set<nat>)
      requires forall i :: 0 <= i < |work| ==> work[i].id in subs
      ensures emitted == OpenItems(work, closed)
      ensures dead == set j | 0 <= j < |work| && work[j].id in closed :: work[j].id
    {
      emitted, dead := [], {};
      for i := 0 to |work|
        invariant emitted == OpenItems(work[..i], closed)
        invariant dead == set j | 0 <= j < i && work[j].id in closed :: work[j].id
      {
        assert work[..i + 1][..i] == work[..i];
        if work[i].id in closed {
          dead := dead + {work[i].id};
        } else {
          var there := Contains(work[i].id);
          if there { emitted := emitted + [work[i]]; }
        }
      }
      assert work[..|work|] == work;
    }

    /** One pass of the worker: every dirty subscription is recomputed and emitted once unless its
        sink is closed, the closed ones are dropped, and nothing is left dirty. */
    method WorkerPass(closed: set<nat>) returns (work: seq<WorkItem>, emitted: seq<WorkItem>)
      requires wake || shutdown
      modifies this`subs, this`wake
      ensures !wake
      ensures ListsDirty(work, old(subs)) && emitted == OpenItems(work, closed)
      ensures subs == AllClean(old(subs)) - (DirtyIds(old(subs)) * closed)
    {
      ClearWake();
      work := TakeDirty();
      var dead;
      emitted, dead := RecomputeAll(work, closed);
      assert dead == DirtyIds(old(subs)) * closed;
      RemoveDead(dead);
    }
  }
}
