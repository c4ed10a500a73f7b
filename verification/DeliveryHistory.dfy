/**
  Context deliveries whose identifier attests the history they were chosen from
  (src/context/broker.ts:574-674, 846-930, 1011-1139; src/context/delivery.ts:800-854).
 */
module DeliveryHistory {
  import opened Options
  import opened Ordering
  import opened Paging

  datatype Item = Item(entryId: string, revision: nat)

  /** One delivery of the run; `rest` stands for the fields no step here looks at. */
  datatype Delivery = Delivery(id: string, queryHash: string, createdAt: nat, items: seq<Item>, rest: string)

  /** What the tables say about one run and the entries delivered to it. */
  datatype World = World(deliveries: map<string, Delivery>, helpful: set<string>,
                         revisions: map<string, nat>, retrievable: set<string>,
                         runState: string, retrievalState: string)   // the two state hashes

  predicate Stored(w: World) {
    forall id <- w.deliveries :: w.deliveries[id].id == id
  }

  datatype StaleItem = StaleItem(entryId: string, delivered: nat, current: nat)

  /** The parts of a history that a delivery identifier depends on. */
  datatype Basis = Basis(exclude: Option<string>, others: seq<Delivery>, delivered: seq<Item>, stale: seq<StaleItem>)

  datatype History = History(exclude: Option<string>, deliveries: seq<string>, delivered: seq<Item>, stale: seq<StaleItem>)
  datatype Attestation = Attestation(queryHash: string, historyHash: string, exclude: Option<string>)

  /** The content hash, by the shape it is applied to. */
  datatype Hashing = Hashing(snapshot: Delivery -> string, history: History -> string, attestation: Attestation -> string)

  ghost predicate Injective(h: Hashing) {
    && (forall a, b :: h.snapshot(a) == h.snapshot(b) ==> a == b)
    && (forall a, b :: h.history(a) == h.history(b) ==> a == b)
    && (forall a, b :: h.attestation(a) == h.attestation(b) ==> a == b)
  }

  const PAGE_LIMIT := 100
  const MAX_PAGES := 10

  // ---- reading a history ----

  function Keys(w: World): set<Key> {
    set id <- w.deliveries :: Key(w.deliveries[id].createdAt, id)
  }

  function RowsOf(w: World, ks: seq<Key>): seq<Delivery>
    requires forall k <- ks :: k.id in w.deliveries
  {
    seq(|ks|, i requires 0 <= i < |ks| => w.deliveries[ks[i].id])
  }

  /** All deliveries, newest first. */
  function Listed(w: World): seq<Delivery> {
    SortedMembers(Keys(w));
    RowsOf(w, Sorted(Keys(w)))
  }

  function Without(ds: seq<Delivery>, id: Option<string>): seq<Delivery> {
    if ds == [] then []
    else (if id == Some(ds[0].id) then [] else [ds[0]]) + Without(ds[1..], id)
  }

  function NotHelpful(items: seq<Item>, helpful: set<string>): seq<Item> {
    if items == [] then []
    else (if items[0].entryId in helpful then [] else [items[0]]) + NotHelpful(items[1..], helpful)
  }

  function DeliveredItems(ds: seq<Delivery>, exclude: Option<string>, helpful: set<string>): seq<Item> {
    if ds == [] then []
    else (if exclude == Some(ds[0].queryHash) then [] else NotHelpful(ds[0].items, helpful))
         + DeliveredItems(ds[1..], exclude, helpful)
  }

  function StaleOf(items: seq<Item>, revisions: map<string, nat>): seq<StaleItem> {
    if items == [] then []
    else
      var it := items[0];
      (if it.entryId in revisions && revisions[it.entryId] > it.revision
       then [StaleItem(it.entryId, it.revision, revisions[it.entryId])] else [])
      + StaleOf(items[1..], revisions)
  }

  function StaleItems(ds: seq<Delivery>, revisions: map<string, nat>): seq<StaleItem> {
    if ds == [] then [] else StaleOf(ds[0].items, revisions) + StaleItems(ds[1..], revisions)
  }

  function BasisFrom(w: World, listed: seq<Delivery>, exclude: Option<string>, excludeId: Option<string>): Basis {
    var others := Without(listed, excludeId);
    Basis(exclude, others, DeliveredItems(others, exclude, w.helpful), StaleItems(others, w.revisions))
  }

  function BasisOf(w: World, exclude: Option<string>, excludeId: Option<string>): Basis {
    BasisFrom(w, Listed(w), exclude, excludeId)
  }

  function Snapshots(h: Hashing, ds: seq<Delivery>): seq<string> {
    seq(|ds|, i requires 0 <= i < |ds| => h.snapshot(ds[i]))
  }

  function StateHash(h: Hashing, b: Basis): string {
    h.history(History(b.exclude, Snapshots(h, b.others), b.delivered, b.stale))
  }

  /** `historyAttestedDeliveryId` */
  function AttestedId(h: Hashing, queryHash: string, b: Basis): string {
    h.attestation(Attestation(queryHash, StateHash(h, b), b.exclude))
  }

  /** The history policy bound: at most ten pages of a hundred. */
  predicate TooLong(w: World) {
    |Sorted(Keys(w))| > PAGE_LIMIT * MAX_PAGES
  }

  /** `priorData`, with its paging loop; None stands for the throw on a history over the bound. */
  method PriorData(w: World, exclude: Option<string>, excludeId: Option<string>) returns (r: Option<Basis>)
    ensures r == if TooLong(w) then None else Some(BasisOf(w, exclude, excludeId))
  {
    var keys := ReadAll(Keys(w), PAGE_LIMIT, MAX_PAGES);
    if keys.None? {
      return None;
    }
    SortedMembers(Keys(w));
    r := Some(BasisFrom(w, RowsOf(w, keys.value), exclude, excludeId));
  }

  // ---- attestation ----

  predicate SameQuery(w: World, queryHash: string, id: string) {
    id in w.deliveries && w.deliveries[id].queryHash == queryHash
  }

  /** `deliveryHistoryExclusionForReplay`: set when another delivery answers the same query. */
  function ExclusionForReplay(w: World, queryHash: string, id: string): Option<string> {
    if exists other <- w.deliveries :: other != id && SameQuery(w, queryHash, other) then Some(queryHash) else None
  }

  /** The history as it looks to a stored delivery: everything but itself. */
  function BasisNow(w: World, queryHash: string, id: string): Basis {
    BasisOf(w, ExclusionForReplay(w, queryHash, id), Some(id))
  }

  /** `deliveryHistoryIsAttested` */
  predicate Attested(h: Hashing, w: World, queryHash: string, d: Delivery) {
    d.id == AttestedId(h, queryHash, BasisNow(w, queryHash, d.id))
  }

  lemma SnapshotsInjective(h: Hashing, a: seq<Delivery>, b: seq<Delivery>)
    requires Injective(h) && Snapshots(h, a) == Snapshots(h, b)
    ensures a == b
  {
    assert |a| == |Snapshots(h, a)| && |b| == |Snapshots(h, b)|;
    forall i | 0 <= i < |a| ensures a[i] == b[i] {
      assert Snapshots(h, a)[i] == Snapshots(h, b)[i];
    }
  }

  /** An identifier determines the query and the whole basis it was computed from. */
  lemma AttestedIdInjective(h: Hashing, p: string, a: Basis, q: string, b: Basis)
    requires Injective(h)
    ensures AttestedId(h, p, a) == AttestedId(h, q, b) <==> p == q && a == b
  {
    if AttestedId(h, p, a) == AttestedId(h, q, b) {
      SnapshotsInjective(h, a.others, b.others);
    }
  }

  /**
    A delivery recorded on the basis of one state is attested in another state exactly when the
    other deliveries of the run, the feedback-filtered items, the staleness and the same-query
    exclusion are what they were.
   */
  lemma AttestedIffUnchanged(h: Hashing, recorded: World, now: World, queryHash: string, d: Delivery)
    requires Injective(h) && Attested(h, recorded, queryHash, d)
    ensures Attested(h, now, queryHash, d) <==>
              BasisNow(now, queryHash, d.id) == BasisNow(recorded, queryHash, d.id)
  {
    AttestedIdInjective(h, queryHash, BasisNow(now, queryHash, d.id), queryHash, BasisNow(recorded, queryHash, d.id));
  }

  // ---- listings ----

  lemma ListedMember(w: World, d: Delivery)
    requires Stored(w)
    ensures d in Listed(w) <==> d.id in w.deliveries && w.deliveries[d.id] == d
  {
    var ks := Sorted(Keys(w));
    SortedMembers(Keys(w));
    if d.id in w.deliveries && w.deliveries[d.id] == d {
      var k := Key(d.createdAt, d.id);
      assert k in ks;
      var i :| 0 <= i < |ks| && ks[i] == k;
      assert Listed(w)[i] == d;
    }
    if d in Listed(w) {
      var i :| 0 <= i < |ks| && Listed(w)[i] == d;
      assert ks[i] in ks;
    }
  }

  lemma {:induction false} WithoutMembers(ds: seq<Delivery>, id: Option<string>, d: Delivery)
    ensures d in Without(ds, id) <==> d in ds && id != Some(d.id)
  {
    if ds != [] {
      WithoutMembers(ds[1..], id, d);
      assert ds == [ds[0]] + ds[1..];
    }
  }

  lemma {:induction false} WithoutAbsent(ds: seq<Delivery>, id: Option<string>)
    requires forall d <- ds :: id != Some(d.id)
    ensures Without(ds, id) == ds
  {
    if ds != [] {
      assert ds[0] in ds;
      WithoutAbsent(ds[1..], id);
    }
  }

  lemma {:induction false} WithoutAppend(a: seq<Delivery>, b: seq<Delivery>, id: Option<string>)
    ensures Without(a + b, id) == Without(a, id) + Without(b, id)
    decreases |a|
  {
    if a == [] {
      assert a + b == b;
    } else {
      assert (a + b)[1..] == a[1..] + b;
      WithoutAppend(a[1..], b, id);
    }
  }

  /** What an identifier's basis lists is what the state holds besides it. */
  lemma BasisMembers(w: World, queryHash: string, id: string, e: Delivery)
    requires Stored(w)
    ensures e in BasisNow(w, queryHash, id).others <==> e.id != id && e.id in w.deliveries && w.deliveries[e.id] == e
  {
    ListedMember(w, e);
    WithoutMembers(Listed(w), Some(id), e);
  }

  /**
    Once the run holds a delivery that an older one was not based on, the older one is not
    attested, however feedback and revisions have moved.
   */
  lemma LaterDeliveryEndsAttestation(h: Hashing, recorded: World, now: World, queryHash: string, d: Delivery, later: Delivery)
    requires Injective(h) && Stored(recorded) && Stored(now) && Attested(h, recorded, queryHash, d)
    requires later.id != d.id && later.id !in recorded.deliveries
    requires later.id in now.deliveries && now.deliveries[later.id] == later
    ensures !Attested(h, now, queryHash, d)
  {
    AttestedIffUnchanged(h, recorded, now, queryHash, d);
    BasisMembers(now, queryHash, d.id, later);
    BasisMembers(recorded, queryHash, d.id, later);
  }

  // ---- recording ----

  function Insert(w: World, d: Delivery): World {
    w.(deliveries := w.deliveries[d.id := d])
  }

  /** The listing with `d` inserted somewhere. */
  lemma ListedGrows(w: World, d: Delivery) returns (i: nat)
    requires Stored(w) && d.id !in w.deliveries
    ensures i <= |Listed(w)| && Listed(Insert(w, d)) == Listed(w)[..i] + [d] + Listed(w)[i..]
  {
    var w', k := Insert(w, d), Key(d.createdAt, d.id);
    var ks := Sorted(Keys(w));
    SortedMembers(Keys(w));
    SortedMembers(Keys(w'));
    GrownKeys(w, d);
    i := GrownSorted(Keys(w), k);
    SplitAt(ks, i);
    RowsOfInserted(w, d, ks[..i], ks[i..]);
    RowsOfSlices(w, ks, i);
  }

  lemma RowsOfSlices(w: World, ks: seq<Key>, i: nat)
    requires i <= |ks| && forall k <- ks :: k.id in w.deliveries
    ensures (forall k <- ks[..i] :: k.id in w.deliveries) && (forall k <- ks[i..] :: k.id in w.deliveries)
    ensures RowsOf(w, ks[..i]) == RowsOf(w, ks)[..i] && RowsOf(w, ks[i..]) == RowsOf(w, ks)[i..]
  {
    SplitAt(ks, i);
  }

  lemma GrownKeys(w: World, d: Delivery)
    requires d.id !in w.deliveries
    ensures Keys(Insert(w, d)) == Keys(w) + {Key(d.createdAt, d.id)} && Key(d.createdAt, d.id) !in Keys(w)
  {
    var w', k := Insert(w, d), Key(d.createdAt, d.id);
    assert d.id in w'.deliveries && k in Keys(w');
    forall x | x in Keys(w) ensures x in Keys(w') {
      assert w'.deliveries[x.id] == w.deliveries[x.id];
    }
    forall x | x in Keys(w') ensures x in Keys(w) || x == k {
      assert x.id in w'.deliveries;
    }
  }

  lemma GrownSorted(table: set<Key>, k: Key) returns (i: nat)
    requires k !in table
    ensures i <= |Sorted(table)| && Sorted(table + {k}) == Sorted(table)[..i] + [k] + Sorted(table)[i..]
  {
    NewerOrder();
    i := ListingGrows(table, k, Newer);
  }

  lemma RowsOfInserted(w: World, d: Delivery, a: seq<Key>, b: seq<Key>)
    requires d.id !in w.deliveries && (forall k <- a :: k.id in w.deliveries) && (forall k <- b :: k.id in w.deliveries)
    ensures RowsOf(Insert(w, d), a + [Key(d.createdAt, d.id)] + b) == RowsOf(w, a) + [d] + RowsOf(w, b)
  {
    assert forall i | 0 <= i < |a| :: a[i] in a;
    assert forall i | 0 <= i < |b| :: b[i] in b;
  }

  lemma WithoutAround(a: seq<Delivery>, d: Delivery, b: seq<Delivery>)
    requires (forall e <- a :: e.id != d.id) && (forall e <- b :: e.id != d.id)
    ensures Without(a + [d] + b, Some(d.id)) == a + b
  {
    var id := Some(d.id);
    WithoutAbsent(a, id);
    WithoutAbsent(b, id);
    WithoutOnly(d);
    WithoutAppend(a + [d], b, id);
    WithoutAppend(a, [d], id);
    assert Without(a + [d], id) == a;
  }

  lemma WithoutOnly(d: Delivery)
    ensures Without([d], Some(d.id)) == []
  {
  }

  lemma WithoutInserted(w: World, d: Delivery)
    requires Stored(w) && d.id !in w.deliveries
    ensures Without(Listed(Insert(w, d)), Some(d.id)) == Listed(w)
  {
    var i := ListedGrows(w, d);
    var before := Listed(w);
    forall e <- before ensures e.id != d.id { ListedMember(w, e); }
    SplitAt(before, i);
    WithoutAround(before[..i], d, before[i..]);
  }

  lemma SplitAt<T>(s: seq<T>, i: nat)
    requires i <= |s|
    ensures s == s[..i] + s[i..] && (forall x <- s[..i] :: x in s) && (forall x <- s[i..] :: x in s)
  {
  }

  /** The exclusion chosen when a query is answered afresh: set when it was answered before. */
  function ExclusionForQuery(w: World, queryHash: string): Option<string> {
    if exists other <- w.deliveries :: SameQuery(w, queryHash, other) then Some(queryHash) else None
  }

  function BasisForQuery(w: World, queryHash: string): Basis {
    BasisOf(w, ExclusionForQuery(w, queryHash), None)
  }

  /** Recording a delivery leaves the basis it was recorded on, seen from itself, as it was. */
  lemma RecordingKeepsBasis(w: World, d: Delivery)
    requires Stored(w) && d.id !in w.deliveries
    ensures BasisNow(Insert(w, d), d.queryHash, d.id) == BasisForQuery(w, d.queryHash)
  {
    var w' := Insert(w, d);
    WithoutInserted(w, d);
    forall e <- Listed(w) ensures None != Some(e.id) {
    }
    WithoutAbsent(Listed(w), None);
    if other :| other in w.deliveries && SameQuery(w, d.queryHash, other) {
      assert other != d.id && SameQuery(w', d.queryHash, other);
    }
    if other :| other in w'.deliveries && other != d.id && SameQuery(w', d.queryHash, other) {
      assert SameQuery(w, d.queryHash, other);
    }
  }

  // ---- every run ----

  /** A recorded delivery, with the basis its identifier attests, if it does. */
  datatype Recorded = Recorded(delivery: Delivery, basis: Option<Basis>)

  datatype State = State(world: World, log: seq<Recorded>)

  ghost predicate NotAnAttestation(h: Hashing, id: string) {
    forall q, b :: id != AttestedId(h, q, b)
  }

  predicate InLog(log: seq<Recorded>, d: Delivery) {
    exists r <- log :: r.delivery == d
  }

  ghost predicate RecordOk(h: Hashing, log: seq<Recorded>, i: nat)
    requires i < |log|
  {
    var r := log[i];
    match r.basis
    case None => NotAnAttestation(h, r.delivery.id)
    case Some(b) => r.delivery.id == AttestedId(h, r.delivery.queryHash, b) && forall e <- b.others :: InLog(log[..i], e)
  }

  ghost predicate Inv(h: Hashing, s: State) {
    && Stored(s.world)
    && (forall i | 0 <= i < |s.log| :: RecordOk(h, s.log, i))
    && (forall i, j | 0 <= i < j < |s.log| :: s.log[i].delivery.id != s.log[j].delivery.id)
    && (forall d :: InLog(s.log, d) <==> d.id in s.world.deliveries && s.world.deliveries[d.id] == d)
  }

  ghost predicate Init(s: State) {
    s.world.deliveries == map[] && s.log == []
  }

  /** Feedback, new revisions and changing retrievability; deliveries stay. */
  ghost predicate OtherChange(s: State, s': State) {
    s'.world.deliveries == s.world.deliveries && s'.log == s.log
  }

  /** One broker transaction. */
  ghost predicate RecordsAttested(h: Hashing, s: State, s': State, d: Delivery) {
    && d.id == AttestedId(h, d.queryHash, BasisForQuery(s.world, d.queryHash))
    && s' == State(Insert(s.world, d), s.log + [Recorded(d, Some(BasisForQuery(s.world, d.queryHash)))])
  }

  /** A delivery recorded by another path, whose identifier is a hash of another kind. */
  ghost predicate RecordsForeign(h: Hashing, s: State, s': State, d: Delivery) {
    && NotAnAttestation(h, d.id) && d.id !in s.world.deliveries
    && s' == State(Insert(s.world, d), s.log + [Recorded(d, None)])
  }

  ghost predicate Next(h: Hashing, s: State, s': State) {
    OtherChange(s, s') || exists d :: RecordsAttested(h, s, s', d) || RecordsForeign(h, s, s', d)
  }

  ghost predicate Run(h: Hashing, run: seq<State>) {
    run != [] && Init(run[0]) && forall i | 0 <= i < |run| - 1 :: Next(h, run[i], run[i + 1])
  }

  lemma BasisForQueryMembers(w: World, queryHash: string, e: Delivery)
    requires Stored(w)
    ensures e in BasisForQuery(w, queryHash).others <==> e.id in w.deliveries && w.deliveries[e.id] == e
  {
    ListedMember(w, e);
    WithoutMembers(Listed(w), None, e);
  }

  lemma LogIndex(log: seq<Recorded>, d: Delivery) returns (i: nat)
    requires InLog(log, d)
    ensures i < |log| && log[i].delivery == d
  {
    var r :| r in log && r.delivery == d;
    i :| 0 <= i < |log| && log[i] == r;
  }

  /** A new attested identifier is never one already stored. */
  lemma AttestedIdIsFresh(h: Hashing, s: State, queryHash: string)
    requires Injective(h) && Inv(h, s)
    ensures AttestedId(h, queryHash, BasisForQuery(s.world, queryHash)) !in s.world.deliveries
  {
    var b := BasisForQuery(s.world, queryHash);
    var id := AttestedId(h, queryHash, b);
    if id in s.world.deliveries {
      var d := s.world.deliveries[id];
      var i := LogIndex(s.log, d);
      assert RecordOk(h, s.log, i);
      AttestedIdInjective(h, d.queryHash, s.log[i].basis.value, queryHash, b);
      BasisForQueryMembers(s.world, queryHash, d);
      var j := LogIndex(s.log[..i], d);
    }
  }

  lemma RecordKeepsInv(h: Hashing, s: State, d: Delivery, basis: Option<Basis>)
    requires Inv(h, s) && d.id !in s.world.deliveries
    requires RecordOk(h, s.log + [Recorded(d, basis)], |s.log|)
    ensures Inv(h, State(Insert(s.world, d), s.log + [Recorded(d, basis)]))
  {
    var log := s.log + [Recorded(d, basis)];
    var w := Insert(s.world, d);
    forall i | 0 <= i < |log| ensures RecordOk(h, log, i) {
      if i < |s.log| { assert RecordOk(h, s.log, i) && log[..i] == s.log[..i]; }
    }
    forall e ensures InLog(log, e) <==> InLog(s.log, e) || e == d {
      assert log[|s.log|] in log;
    }
    forall i | 0 <= i < |s.log| ensures s.log[i].delivery.id != d.id {
      assert s.log[i] in s.log && InLog(s.log, s.log[i].delivery);
    }
  }

  lemma NextKeepsInv(h: Hashing, s: State, s': State)
    requires Injective(h) && Inv(h, s) && Next(h, s, s')
    ensures Inv(h, s')
  {
    if !OtherChange(s, s') {
      var d :| RecordsAttested(h, s, s', d) || RecordsForeign(h, s, s', d);
      if RecordsAttested(h, s, s', d) {
        AttestedIdIsFresh(h, s, d.queryHash);
        var b := BasisForQuery(s.world, d.queryHash);
        var log := s.log + [Recorded(d, Some(b))];
        assert log[..|s.log|] == s.log;
        forall e <- b.others ensures InLog(s.log, e) {
          BasisForQueryMembers(s.world, d.queryHash, e);
        }
        RecordKeepsInv(h, s, d, Some(b));
      } else {
        RecordKeepsInv(h, s, d, None);
      }
    }
  }

  lemma {:induction false} InvAlways(h: Hashing, run: seq<State>, i: nat)
    requires Injective(h) && Run(h, run) && i < |run|
    ensures Inv(h, run[i])
  {
    if i > 0 {
      InvAlways(h, run, i - 1);
      NextKeepsInv(h, run[i - 1], run[i]);
    }
  }

  /** In every reachable state only the delivery recorded last can be attested. */
  lemma OnlyLatestAttested(h: Hashing, run: seq<State>, k: nat, i: nat)
    requires Injective(h) && Run(h, run) && k < |run| && i < |run[k].log|
    requires var d := run[k].log[i].delivery; Attested(h, run[k].world, d.queryHash, d)
    ensures i == |run[k].log| - 1
  {
    InvAlways(h, run, k);
    LatestOnly(h, run[k], i);
  }

  lemma LatestOnly(h: Hashing, s: State, i: nat)
    requires Injective(h) && Inv(h, s) && i < |s.log|
    requires var d := s.log[i].delivery; Attested(h, s.world, d.queryHash, d)
    ensures i == |s.log| - 1
  {
    var d := s.log[i].delivery;
    assert RecordOk(h, s.log, i);
    var now := BasisNow(s.world, d.queryHash, d.id);
    AttestedIdInjective(h, d.queryHash, s.log[i].basis.value, d.queryHash, now);
    if i + 1 < |s.log| {
      var e := s.log[i + 1].delivery;
      assert s.log[i + 1] in s.log && InLog(s.log, e);
      BasisMembers(s.world, d.queryHash, d.id, e);
      var j := LogIndex(s.log[..i], e);
    }
  }

  /** Right after a broker transaction the delivery it recorded is attested, and no other is. */
  lemma AttestedRightAfter(h: Hashing, s: State, s': State, d: Delivery)
    requires Injective(h) && Inv(h, s) && RecordsAttested(h, s, s', d)
    ensures Attested(h, s'.world, d.queryHash, d)
    ensures forall e :: InLog(s'.log, e) && Attested(h, s'.world, e.queryHash, e) ==> e == d
  {
    AttestedIdIsFresh(h, s, d.queryHash);
    RecordingKeepsBasis(s.world, d);
    NextKeepsInv(h, s, s');
    forall e | InLog(s'.log, e) && Attested(h, s'.world, e.queryHash, e) ensures e == d {
      var i := LogIndex(s'.log, e);
      LatestOnly(h, s', i);
    }
  }
}
