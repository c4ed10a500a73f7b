/**
  What the history of a run consists of: which items count as delivered and which as stale, in which
  order and how often (src/context/broker.ts:574-618).
 */
module HistoryBasis {
  import opened Options
  import opened Sequences
  import opened Ordering
  import opened Paging
  import opened DeliveryHistory

  /** One item of one delivery. */
  datatype Shown = Shown(delivery: Delivery, item: Item)

  function ShownIn(d: Delivery, items: seq<Item>): seq<Shown> {
    seq(|items|, k requires 0 <= k < |items| => Shown(d, items[k]))
  }

  /** Every item of every delivery, in order. */
  function AllShown(ds: seq<Delivery>): seq<Shown> {
    if ds == [] then [] else ShownIn(ds[0], ds[0].items) + AllShown(ds[1..])
  }

  function ItemsOf(shown: seq<Shown>): seq<Item> {
    seq(|shown|, k requires 0 <= k < |shown| => shown[k].item)
  }

  /** Items of a delivery whose query is not the excluded one, of entries without helpful feedback. */
  function Counted(exclude: Option<string>, helpful: set<string>): Shown -> bool {
    (s: Shown) => exclude != Some(s.delivery.queryHash) && s.item.entryId !in helpful
  }

  /** Items whose entry is stored at a newer revision. */
  function Outdated(revisions: map<string, nat>): Shown -> bool {
    (s: Shown) => s.item.entryId in revisions && revisions[s.item.entryId] > s.item.revision
  }

  lemma ShownRest(d: Delivery, items: seq<Item>)
    requires items != []
    ensures ShownIn(d, items)[0] == Shown(d, items[0]) && ShownIn(d, items)[1..] == ShownIn(d, items[1..])
  {
  }

  lemma ItemsAppend(a: seq<Shown>, b: seq<Shown>)
    ensures ItemsOf(a + b) == ItemsOf(a) + ItemsOf(b)
  {
  }

  lemma {:induction false} ExcludedShowsNothing(d: Delivery, items: seq<Item>, exclude: Option<string>, helpful: set<string>)
    requires exclude == Some(d.queryHash)
    ensures Filter(ShownIn(d, items), Counted(exclude, helpful)) == []
  {
    if items != [] {
      ShownRest(d, items);
      ExcludedShowsNothing(d, items[1..], exclude, helpful);
    }
  }

  lemma {:induction false} CountedIn(d: Delivery, items: seq<Item>, exclude: Option<string>, helpful: set<string>)
    requires exclude != Some(d.queryHash)
    ensures NotHelpful(items, helpful) == ItemsOf(Filter(ShownIn(d, items), Counted(exclude, helpful)))
  {
    if items != [] {
      ShownRest(d, items);
      CountedIn(d, items[1..], exclude, helpful);
      var keep := Counted(exclude, helpful);
      ItemsAppend(if keep(Shown(d, items[0])) then [Shown(d, items[0])] else [], Filter(ShownIn(d, items[1..]), keep));
    }
  }

  lemma {:induction false} DeliveredIsFilter(ds: seq<Delivery>, exclude: Option<string>, helpful: set<string>)
    ensures DeliveredItems(ds, exclude, helpful) == ItemsOf(Filter(AllShown(ds), Counted(exclude, helpful)))
  {
    if ds != [] {
      var keep, first, rest := Counted(exclude, helpful), ShownIn(ds[0], ds[0].items), AllShown(ds[1..]);
      DeliveredIsFilter(ds[1..], exclude, helpful);
      FilterAppend(first, rest, keep);
      ItemsAppend(Filter(first, keep), Filter(rest, keep));
      if exclude == Some(ds[0].queryHash) {
        ExcludedShowsNothing(ds[0], ds[0].items, exclude, helpful);
      } else {
        CountedIn(ds[0], ds[0].items, exclude, helpful);
      }
    }
  }

  /** The items behind stale reports. */
  function Behind(ss: seq<StaleItem>): seq<Item> {
    seq(|ss|, k requires 0 <= k < |ss| => Item(ss[k].entryId, ss[k].delivered))
  }

  lemma BehindAppend(a: seq<StaleItem>, b: seq<StaleItem>)
    ensures Behind(a + b) == Behind(a) + Behind(b)
  {
  }

  lemma {:induction false} OutdatedIn(d: Delivery, items: seq<Item>, revisions: map<string, nat>)
    ensures Behind(StaleOf(items, revisions)) == ItemsOf(Filter(ShownIn(d, items), Outdated(revisions)))
  {
    if items != [] {
      ShownRest(d, items);
      OutdatedIn(d, items[1..], revisions);
      var keep, x := Outdated(revisions), Shown(d, items[0]);
      ItemsAppend(if keep(x) then [x] else [], Filter(ShownIn(d, items[1..]), keep));
      if keep(x) {
        BehindAppend([StaleItem(items[0].entryId, items[0].revision, revisions[items[0].entryId])], StaleOf(items[1..], revisions));
      } else {
        assert StaleOf(items, revisions) == StaleOf(items[1..], revisions);
      }
    }
  }

  lemma {:induction false} StaleIsFilter(ds: seq<Delivery>, revisions: map<string, nat>)
    ensures Behind(StaleItems(ds, revisions)) == ItemsOf(Filter(AllShown(ds), Outdated(revisions)))
  {
    if ds != [] {
      var keep, first, rest := Outdated(revisions), ShownIn(ds[0], ds[0].items), AllShown(ds[1..]);
      StaleIsFilter(ds[1..], revisions);
      OutdatedIn(ds[0], ds[0].items, revisions);
      BehindAppend(StaleOf(ds[0].items, revisions), StaleItems(ds[1..], revisions));
      FilterAppend(first, rest, keep);
      ItemsAppend(Filter(first, keep), Filter(rest, keep));
    }
  }

  /** Every stale report names the revision that is stored. */
  lemma {:induction false} StaleCurrent(items: seq<Item>, revisions: map<string, nat>, s: StaleItem)
    requires s in StaleOf(items, revisions)
    ensures s.entryId in revisions && s.current == revisions[s.entryId]
  {
    if s in StaleOf(items[1..], revisions) { StaleCurrent(items[1..], revisions, s); }
  }

  lemma {:induction false} StaleItemsCurrent(ds: seq<Delivery>, revisions: map<string, nat>, s: StaleItem)
    requires s in StaleItems(ds, revisions)
    ensures s.entryId in revisions && s.current == revisions[s.entryId]
  {
    if s in StaleOf(ds[0].items, revisions) {
      StaleCurrent(ds[0].items, revisions, s);
    } else {
      StaleItemsCurrent(ds[1..], revisions, s);
    }
  }

  lemma {:induction false} AllShownMembers(ds: seq<Delivery>, s: Shown)
    ensures s in AllShown(ds) <==> s.delivery in ds && s.item in s.delivery.items
  {
    if ds != [] {
      AllShownMembers(ds[1..], s);
      assert ds == [ds[0]] + ds[1..];
      if s.delivery == ds[0] && s.item in ds[0].items {
        var k :| 0 <= k < |ds[0].items| && ds[0].items[k] == s.item;
        assert ShownIn(ds[0], ds[0].items)[k] == s;
      }
    }
  }

  // ---- the history of a run ----

  /**
    The items that count as delivered are exactly those of the deliveries in the history whose query
    is not the excluded one and whose entry has no helpful feedback, in listing order, as often as
    they were delivered.
   */
  lemma DeliveredExactly(w: World, exclude: Option<string>, excludeId: Option<string>)
    returns (at: seq<nat>, counted: seq<Shown>)
    ensures var b := BasisOf(w, exclude, excludeId);
            Extracts(AllShown(b.others), Counted(exclude, w.helpful), at, counted) && b.delivered == ItemsOf(counted)
  {
    var b := BasisOf(w, exclude, excludeId);
    counted := Filter(AllShown(b.others), Counted(exclude, w.helpful));
    at := FilterExtracts(AllShown(b.others), Counted(exclude, w.helpful));
    DeliveredIsFilter(b.others, exclude, w.helpful);
  }

  /**
    The stale items are exactly those whose entry is stored at a newer revision, whatever the query,
    in listing order, each reported with the stored revision.
   */
  lemma StaleExactly(w: World, exclude: Option<string>, excludeId: Option<string>)
    returns (at: seq<nat>, outdated: seq<Shown>)
    ensures var b := BasisOf(w, exclude, excludeId);
            && Extracts(AllShown(b.others), Outdated(w.revisions), at, outdated) && Behind(b.stale) == ItemsOf(outdated)
            && forall s <- b.stale :: s.entryId in w.revisions && s.current == w.revisions[s.entryId]
  {
    var b := BasisOf(w, exclude, excludeId);
    outdated := Filter(AllShown(b.others), Outdated(w.revisions));
    at := FilterExtracts(AllShown(b.others), Outdated(w.revisions));
    StaleIsFilter(b.others, w.revisions);
    forall s <- b.stale ensures s.entryId in w.revisions && s.current == w.revisions[s.entryId] {
      StaleItemsCurrent(b.others, w.revisions, s);
    }
  }

  /** The listing is newest first, ties by identifier. */
  lemma ListedInOrder(w: World, i: nat, j: nat)
    requires Stored(w) && i < j < |Listed(w)|
    ensures var a, b := Listed(w)[i], Listed(w)[j];
            a.id != b.id && (a.createdAt > b.createdAt || (a.createdAt == b.createdAt && StringLess(a.id, b.id)))
  {
    NewerOrder();
    SortedMembers(Keys(w));
    OrderedLists(Keys(w), Newer);
    var ks := Sorted(Keys(w));
    assert ks[i] in ks && ks[j] in ks && Newer(ks[i], ks[j]);
    StringOrder();
  }

  /** The history is the listing with the excluded delivery taken out, if it is there. */
  lemma OthersAreListed(w: World, exclude: Option<string>, excludeId: Option<string>)
    requires Stored(w)
    ensures var all, others := Listed(w), BasisOf(w, exclude, excludeId).others;
            if excludeId.Some? && excludeId.value in w.deliveries
            then exists i: nat :: i < |all| && all[i].id == excludeId.value && others == all[..i] + all[i + 1..]
            else others == all
  {
    var all := Listed(w);
    if excludeId.Some? && excludeId.value in w.deliveries {
      var d := w.deliveries[excludeId.value];
      ListedMember(w, d);
      var i: nat :| i < |all| && all[i] == d;
      forall j: nat | j < |all| && j != i ensures all[j].id != d.id {
        if j < i { ListedInOrder(w, j, i); } else { ListedInOrder(w, i, j); }
      }
      assert all == all[..i] + [d] + all[i + 1..];
      WithoutAround(all[..i], d, all[i + 1..]);
    } else {
      forall e <- all ensures excludeId != Some(e.id) { ListedMember(w, e); }
      WithoutAbsent(all, excludeId);
    }
  }

  // ---- what ends attestation ----

  /** The deliveries of a history, from the tables. */
  lemma OthersMembers(w: World, exclude: Option<string>, excludeId: Option<string>, d: Delivery)
    requires Stored(w)
    ensures d in BasisOf(w, exclude, excludeId).others <==> d.id in w.deliveries && w.deliveries[d.id] == d && excludeId != Some(d.id)
  {
    ListedMember(w, d);
    WithoutMembers(Listed(w), excludeId, d);
  }

  /** An item is kept exactly when some delivery of the history holds it so. */
  lemma KeptMembers(ds: seq<Delivery>, keep: Shown -> bool, it: Item)
    ensures it in ItemsOf(Filter(AllShown(ds), keep)) <==> exists d <- ds :: it in d.items && keep(Shown(d, it))
  {
    var kept := Filter(AllShown(ds), keep);
    if it in ItemsOf(kept) {
      var k :| 0 <= k < |kept| && ItemsOf(kept)[k] == it;
      FilterMembers(AllShown(ds), keep, kept[k]);
      AllShownMembers(ds, kept[k]);
    }
    if d :| d in ds && it in d.items && keep(Shown(d, it)) {
      AllShownMembers(ds, Shown(d, it));
      FilterMembers(AllShown(ds), keep, Shown(d, it));
      var k :| 0 <= k < |kept| && kept[k] == Shown(d, it);
      assert ItemsOf(kept)[k] == it;
    }
  }

  /** Which items count as delivered, from the tables. */
  lemma DeliveredMembers(w: World, exclude: Option<string>, excludeId: Option<string>, it: Item)
    requires Stored(w)
    ensures it in BasisOf(w, exclude, excludeId).delivered <==>
              && it.entryId !in w.helpful
              && exists id <- w.deliveries ::
                   excludeId != Some(id) && exclude != Some(w.deliveries[id].queryHash) && it in w.deliveries[id].items
  {
    var b := BasisOf(w, exclude, excludeId);
    DeliveredIsFilter(b.others, exclude, w.helpful);
    KeptMembers(b.others, Counted(exclude, w.helpful), it);
    forall d: Delivery { OthersMembers(w, exclude, excludeId, d); }
    if id :| id in w.deliveries && excludeId != Some(id) && exclude != Some(w.deliveries[id].queryHash) && it in w.deliveries[id].items {
      assert w.deliveries[id] in b.others;
    }
  }

  /** Which items are stale, from the tables. */
  lemma StaleMembers(w: World, exclude: Option<string>, excludeId: Option<string>, it: Item)
    requires Stored(w)
    ensures it in Behind(BasisOf(w, exclude, excludeId).stale) <==>
              && it.entryId in w.revisions && w.revisions[it.entryId] > it.revision
              && exists id <- w.deliveries :: excludeId != Some(id) && it in w.deliveries[id].items
  {
    var b := BasisOf(w, exclude, excludeId);
    StaleIsFilter(b.others, w.revisions);
    KeptMembers(b.others, Outdated(w.revisions), it);
    forall d: Delivery { OthersMembers(w, exclude, excludeId, d); }
    if id :| id in w.deliveries && excludeId != Some(id) && it in w.deliveries[id].items {
      assert w.deliveries[id] in b.others;
    }
  }

  /**
    Helpful feedback ends attestation: once an item another delivery counted with gets it, the older
    delivery is not attested, whatever else has changed.
   */
  lemma FeedbackEndsAttestation(h: Hashing, recorded: World, now: World, d: Delivery, other: string, it: Item)
    requires Injective(h) && Stored(recorded) && Stored(now) && Attested(h, recorded, d.queryHash, d)
    requires other != d.id && other in recorded.deliveries && it in recorded.deliveries[other].items
    requires recorded.deliveries[other].queryHash != d.queryHash && it.entryId !in recorded.helpful && it.entryId in now.helpful
    ensures !Attested(h, now, d.queryHash, d)
  {
    AttestedIffUnchanged(h, recorded, now, d.queryHash, d);
    DeliveredMembers(recorded, ExclusionForReplay(recorded, d.queryHash, d.id), Some(d.id), it);
    DeliveredMembers(now, ExclusionForReplay(now, d.queryHash, d.id), Some(d.id), it);
  }

  /** So does a newer revision of an entry that another delivery delivered. */
  lemma RevisionEndsAttestation(h: Hashing, recorded: World, now: World, d: Delivery, other: string, it: Item)
    requires Injective(h) && Stored(recorded) && Stored(now) && Attested(h, recorded, d.queryHash, d)
    requires other != d.id && other in now.deliveries && it in now.deliveries[other].items
    requires it.entryId in now.revisions && now.revisions[it.entryId] > it.revision
    requires it.entryId !in recorded.revisions || recorded.revisions[it.entryId] != now.revisions[it.entryId]
    ensures !Attested(h, now, d.queryHash, d)
  {
    var first, later := ExclusionForReplay(recorded, d.queryHash, d.id), ExclusionForReplay(now, d.queryHash, d.id);
    AttestedIffUnchanged(h, recorded, now, d.queryHash, d);
    StaleMembers(now, later, Some(d.id), it);
    var stale := BasisOf(now, later, Some(d.id)).stale;
    var k :| 0 <= k < |stale| && Behind(stale)[k] == it;
    var s := stale[k];
    assert s in stale;
    var _, _ := StaleExactly(now, later, Some(d.id));
    var _, _ := StaleExactly(recorded, first, Some(d.id));
  }
}
