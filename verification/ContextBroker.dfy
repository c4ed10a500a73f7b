/**
  The broker's replay search and its two-transaction write, over tables that anyone may change
  between its calls (src/context/broker.ts:914-930, 1002-1139).
 */
module ContextBroker {
  import opened Options
  import opened Ordering
  import opened Paging
  import opened DeliveryHistory

  /** Every item is still retrievable at the delivered revision. */
  predicate Retrievable(w: World, d: Delivery) {
    forall it <- d.items :: it.entryId in w.retrievable && it.entryId in w.revisions && w.revisions[it.entryId] == it.revision
  }

  predicate Replayable(h: Hashing, w: World, queryHash: string, d: Delivery) {
    && d.id in w.deliveries && w.deliveries[d.id] == d && d.queryHash == queryHash
    && Retrievable(w, d) && Attested(h, w, queryHash, d)
  }

  /** The ids a query was answered under, ascending. */
  function AnsweredIds(w: World, queryHash: string): seq<string> {
    StringOrder();
    Ordered((set id <- w.deliveries | w.deliveries[id].queryHash == queryHash), StringLess)
  }

  lemma AnsweredIdsMembers(w: World, queryHash: string)
    ensures forall id :: id in AnsweredIds(w, queryHash) <==> SameQuery(w, queryHash, id)
  {
    var s := set id <- w.deliveries | w.deliveries[id].queryHash == queryHash;
    StringOrder();
    OrderedLists(s, StringLess);
    assert forall id :: id in AnsweredIds(w, queryHash) <==> id in Elements(AnsweredIds(w, queryHash));
  }

  /** `replayableDelivery`: the answer with the least identifier that is retrievable and attested. */
  method FindReplay(h: Hashing, w: World, queryHash: string) returns (delivery: Option<Delivery>, found: bool)
    requires Stored(w)
    ensures delivery.Some? ==> Replayable(h, w, queryHash, delivery.value)
    ensures delivery.Some? ==>
              && delivery.value.queryHash == queryHash && delivery.value.id in w.deliveries
              && w.deliveries[delivery.value.id] == delivery.value
              && (forall it <- delivery.value.items ::
                    it.entryId in w.retrievable && it.entryId in w.revisions && w.revisions[it.entryId] == it.revision)
              && delivery.value.id == AttestedId(h, queryHash, BasisNow(w, queryHash, delivery.value.id))
    ensures delivery.Some? ==>
              forall d | Replayable(h, w, queryHash, d) && d != delivery.value :: StringLess(delivery.value.id, d.id)
    ensures delivery.None? ==> forall d :: !Replayable(h, w, queryHash, d)
    ensures found <==> ExclusionForQuery(w, queryHash).Some?
  {
    var ids := AnsweredIds(w, queryHash);
    AnsweredIdsMembers(w, queryHash);
    found := ids != [];
    assert found ==> ids[0] in ids;
    ghost var i;
    delivery, i := FirstReplayable(h, w, queryHash, ids);
    if delivery.Some? { LeastAnswer(h, w, queryHash, ids, i); }
  }

  lemma LeastAnswer(h: Hashing, w: World, queryHash: string, ids: seq<string>, i: nat)
    requires ids == AnsweredIds(w, queryHash) && i < |ids| && ids[i] in w.deliveries && Stored(w)
    requires forall j | 0 <= j < i :: !ReplayableId(h, w, queryHash, ids[j])
    ensures forall d | Replayable(h, w, queryHash, d) && d != w.deliveries[ids[i]] :: StringLess(ids[i], d.id)
  {
    StringOrder();
    OrderedLists((set id <- w.deliveries | w.deliveries[id].queryHash == queryHash), StringLess);
    AnsweredIdsMembers(w, queryHash);
    forall d | Replayable(h, w, queryHash, d) && d != w.deliveries[ids[i]] ensures StringLess(ids[i], d.id) {
      assert SameQuery(w, queryHash, d.id);
      var j :| 0 <= j < |ids| && ids[j] == d.id;
      assert ReplayableId(h, w, queryHash, ids[j]);
    }
  }

  /** The loop over the answered ids. */
  method FirstReplayable(h: Hashing, w: World, queryHash: string, ids: seq<string>)
    returns (delivery: Option<Delivery>, ghost i: nat)
    requires Stored(w) && forall id :: id in ids <==> SameQuery(w, queryHash, id)
    ensures delivery.Some? ==> Replayable(h, w, queryHash, delivery.value)
    ensures delivery.Some? ==>
              && i < |ids| && ids[i] in w.deliveries && delivery.value == w.deliveries[ids[i]]
              && forall j | 0 <= j < i :: !ReplayableId(h, w, queryHash, ids[j])
    ensures delivery.None? ==> forall d :: !Replayable(h, w, queryHash, d)
  {
    var k := 0;
    while k < |ids|
      invariant 0 <= k <= |ids|
      invariant forall j | 0 <= j < k :: !ReplayableId(h, w, queryHash, ids[j])
    {
      assert ids[k] in ids;
      var good := CheckReplay(h, w, queryHash, ids[k]);
      if good {
        return Some(w.deliveries[ids[k]]), k;
      }
      k := k + 1;
    }
    NoneReplayable(h, w, queryHash, ids);
    delivery, i := None, k;
  }

  /** `storedDeliveryIsRetrievable` and `deliveryHistoryIsAttested` for one answer of the query. */
  method CheckReplay(h: Hashing, w: World, queryHash: string, id: string) returns (good: bool)
    requires Stored(w) && SameQuery(w, queryHash, id)
    ensures good <==> ReplayableId(h, w, queryHash, id)
  {
    var d := w.deliveries[id];
    good := Retrievable(w, d) && Attested(h, w, queryHash, d);
  }

  predicate ReplayableId(h: Hashing, w: World, queryHash: string, id: string) {
    id in w.deliveries && Replayable(h, w, queryHash, w.deliveries[id])
  }

  lemma NoneReplayable(h: Hashing, w: World, queryHash: string, ids: seq<string>)
    requires forall id :: id in ids <==> SameQuery(w, queryHash, id)
    requires forall j | 0 <= j < |ids| :: !ReplayableId(h, w, queryHash, ids[j])
    ensures forall d :: !Replayable(h, w, queryHash, d)
  {
    forall d ensures !Replayable(h, w, queryHash, d) {
      if SameQuery(w, queryHash, d.id) {
        var j :| 0 <= j < |ids| && ids[j] == d.id;
      }
    }
  }

  /** A query whose answer is chosen but not recorded yet. */
  datatype Prepared =
    | Replay(delivery: Delivery)
    | Pending(id: string, queryHash: string, stateHash: string, exclude: Option<string>, runState: string,
              retrievalState: string)

  class Broker {
    const h: Hashing
    var world: World
    ghost var log: seq<Recorded>

    ghost function Now(): State
      reads this
    {
      State(world, log)
    }

    /** `prepareResult`; None stands for the throw on a history over the policy bound. */
    method Prepare(queryHash: string) returns (r: Option<Prepared>)
      requires Stored(world)
      ensures r.None? <==> TooLong(world)
      ensures r.Some? && r.value.Replay? ==>
                Replayable(h, world, queryHash, r.value.delivery)
      ensures r.Some? && r.value.Pending? ==>
                && (forall d :: !Replayable(h, world, queryHash, d))
                && r.value.queryHash == queryHash && PreparedOn(h, world, r.value)
    {
      var replay, found := FindReplay(h, world, queryHash);
      var exclude := if replay.None? && found then Some(queryHash) else None;
      var prior := PriorData(world, exclude, None);
      if prior.None? {
        return None;
      }
      if replay.Some? {
        return Some(Replay(replay.value));
      }
      assert exclude == ExclusionForQuery(world, queryHash);
      var hash := StateHash(h, prior.value);
      r := Some(Pending(h.attestation(Attestation(queryHash, hash, exclude)), queryHash, hash, exclude,
                        world.runState, world.retrievalState));
    }

    /**
      `assertPreparedBrokerState`: run, retrieval and history are as prepared, and the selected
      entries are still retrievable.
     */
    method StillPrepared(p: Prepared, d: Delivery, stateHash: string) returns (ok: bool)
      requires p.Pending?
      ensures ok <==> StateAsPrepared(h, world, p, d, stateHash)
    {
      var current := PriorData(world, p.exclude, None);
      ok := world.runState == p.runState && Retrievable(world, d) && world.retrievalState == p.retrievalState
            && current.Some? && StateHash(h, current.value) == stateHash;
    }

    /**
      The recording transaction: it succeeds only if the run, the retrieval state and the history
      are still what the answer was prepared on and its entries are retrievable; the new identifier
      then attests the history at the moment of recording.
     */
    method Persist(p: Prepared, createdAt: nat, items: seq<Item>, rest: string)
      returns (r: Option<Delivery>, committed: string)
      requires Injective(h) && Inv(h, Now()) && p.Pending?
      requires exists earlier: World :: Stored(earlier) && PreparedOn(h, earlier, p)
      modifies this
      ensures Inv(h, Now())
      ensures r.None? ==> world == old(world) && log == old(log)
      ensures r.Some? ==>
                && r.value == Delivery(p.id, p.queryHash, createdAt, items, rest)
                && StateAsPrepared(h, old(world), p, r.value, p.stateHash)
                && RecordsAttested(h, old(Now()), Now(), r.value)
                && !TooLong(world) && committed == StateHash(h, BasisOf(world, p.exclude, None))
    {
      ghost var earlier :| Stored(earlier) && PreparedOn(h, earlier, p);
      committed := "";
      var d := Delivery(p.id, p.queryHash, createdAt, items, rest);
      var same := StillPrepared(p, d, p.stateHash);
      if !same {
        return None, committed;
      }
      SameHistory(h, earlier, world, p);
      AttestedIdIsFresh(h, Now(), p.queryHash);
      ghost var before := Now();
      var grown := Insert(world, d);
      var history := PriorData(grown, p.exclude, None);
      if history.None? {
        return None, committed;
      }
      committed := StateHash(h, history.value);
      world := grown;
      log := log + [Recorded(d, Some(BasisForQuery(before.world, d.queryHash)))];
      assert RecordsAttested(h, before, Now(), d);
      NextKeepsInv(h, before, Now());
      r := Some(d);
    }

    /**
      The confirming transaction, `after` being the tables right after recording: it accepts exactly
      a delivery that is still stored unchanged and attested in a state as prepared, and then the
      whole history is the one committed.
     */
    method Confirm(p: Prepared, d: Delivery, committed: string, ghost after: World) returns (ok: bool)
      requires Stored(world) && p.Pending? && committed == StateHash(h, BasisOf(after, p.exclude, None))
      ensures ok <==>
                && d.id in world.deliveries && world.deliveries[d.id] == d && Attested(h, world, d.queryHash, d)
                && StateAsPrepared(h, world, p, d, committed)
      ensures ok && Injective(h) ==> BasisOf(world, p.exclude, None) == BasisOf(after, p.exclude, None)
    {
      var prior := PriorData(world, ExclusionForReplay(world, d.queryHash, d.id), Some(d.id));
      var same := StillPrepared(p, d, committed);
      ok := same && d.id in world.deliveries && world.deliveries[d.id] == d
            && prior.Some? && d.id == AttestedId(h, d.queryHash, prior.value);
      if ok && Injective(h) {
        StateHashInjective(h, BasisOf(world, p.exclude, None), BasisOf(after, p.exclude, None));
      }
    }
  }

  ghost predicate StateAsPrepared(h: Hashing, w: World, p: Prepared, d: Delivery, stateHash: string)
    requires p.Pending?
  {
    && w.runState == p.runState && Retrievable(w, d) && w.retrievalState == p.retrievalState
    && !TooLong(w) && StateHash(h, BasisOf(w, p.exclude, None)) == stateHash
  }

  /** What `Prepare` computed in some earlier state. */
  ghost predicate PreparedOn(h: Hashing, w: World, p: Prepared) {
    p.Pending? && p == Pending(AttestedId(h, p.queryHash, BasisForQuery(w, p.queryHash)), p.queryHash,
                               StateHash(h, BasisForQuery(w, p.queryHash)), ExclusionForQuery(w, p.queryHash),
                               w.runState, w.retrievalState)
  }

  lemma StateHashInjective(h: Hashing, a: Basis, b: Basis)
    requires Injective(h) && StateHash(h, a) == StateHash(h, b)
    ensures a == b
  {
    SnapshotsInjective(h, a.others, b.others);
  }

  /** An unchanged history hash means an unchanged basis, the same-query exclusion included. */
  lemma SameHistory(h: Hashing, earlier: World, now: World, p: Prepared)
    requires Injective(h) && Stored(earlier) && Stored(now) && PreparedOn(h, earlier, p)
    requires StateHash(h, BasisOf(now, p.exclude, None)) == p.stateHash
    ensures BasisForQuery(now, p.queryHash) == BasisForQuery(earlier, p.queryHash)
  {
    var a, b := BasisOf(now, p.exclude, None), BasisForQuery(earlier, p.queryHash);
    StateHashInjective(h, a, b);
    var q := p.queryHash;
    if id :| id in now.deliveries && SameQuery(now, q, id) {
      var d := now.deliveries[id];
      ListedMember(now, d);
      WithoutMembers(Listed(now), None, d);
      BasisForQueryMembers(earlier, q, d);
      assert SameQuery(earlier, q, id);
    }
    if id :| id in earlier.deliveries && SameQuery(earlier, q, id) {
      var d := earlier.deliveries[id];
      BasisForQueryMembers(earlier, q, d);
      ListedMember(now, d);
      WithoutMembers(Listed(now), None, d);
      assert SameQuery(now, q, id);
    }
  }

  /**
    Right after recording, the same query is answered by replaying that very delivery.
   */
  method QueryAgain(b: Broker, p: Prepared, createdAt: nat, items: seq<Item>, rest: string)
    returns (first: Option<Delivery>, second: Option<Prepared>)
    requires Injective(b.h) && Inv(b.h, b.Now()) && p.Pending?
    requires exists earlier: World :: Stored(earlier) && PreparedOn(b.h, earlier, p)
    modifies b
    ensures first.Some? ==> second == Some(Replay(first.value))
  {
    ghost var before := b.Now();
    var committed;
    first, committed := b.Persist(p, createdAt, items, rest);
    if first.None? {
      return first, None;
    }
    second := b.Prepare(p.queryHash);
    AttestedRightAfter(b.h, before, b.Now(), first.value);
    assert b.log[|b.log| - 1] in b.log && InLog(b.log, first.value);
    assert Replayable(b.h, b.world, p.queryHash, first.value);
  }
}
