/**
  Normalising a capability catalog under a processing budget, and the digest that binds a run to
  it (src/akinator/capabilities.ts:163-305, src/akinator/capability-binding.ts:20-58).
 */
module CapabilityCatalog {
  import opened Options
  import opened Ordering

  const MAX_NAME := 300
  const MAX_DESCRIPTION := 2000
  const MAX_RAW_DESCRIPTION := 64000
  const MAX_ITEMS := 16000
  const BUDGET := 512000

  datatype Kind = Skill | McpTool

  function KindName(k: Kind): string {
    match k case Skill => "skill" case McpTool => "mcp_tool"
  }

  /** A catalog element; anything that is not a record of the expected field types is malformed. */
  datatype Item = Malformed | Item(kind: Kind, name: string, description: Option<string>)

  /** Unicode: names free of surrounding space and control characters; description cleaning. */
  datatype Text = Text(plain: string -> bool, clean: string -> string)

  ghost predicate TextOk(t: Text) {
    forall s :: t.plain(s) ==> '\0' !in s
  }

  predicate HeaderOk(t: Text, it: Item) {
    it.Item? && 0 < |it.name| <= MAX_NAME && t.plain(it.name)
  }

  /** `boundedCodePointLength`: counts no further than one beyond the limit. */
  method BoundedCodePointLength(s: string, limit: int) returns (n: nat)
    ensures n == if limit < 0 then 0 else LengthUpTo(|s|, limit)
  {
    if limit < 0 {
      return 0;
    }
    n := 0;
    while n < |s|
      invariant n <= |s| && n <= limit
    {
      n := n + 1;
      if n > limit {
        return;
      }
    }
  }

  function LengthUpTo(length: nat, limit: nat): nat {
    if length > limit then limit + 1 else length
  }

  function Truncate(s: string, max: nat): string {
    if max == 0 then "" else if |s| <= max then s else s[..max - 1] + "…"
  }

  function Cost(it: Item): nat
    requires it.Item?
  {
    LengthUpTo(|it.name|, MAX_NAME) + |KindName(it.kind)| + 32
  }

  // ---- first pass: identities ----

  datatype Reservation = Reservation(accepted: seq<Item>, dropped: nat, remaining: nat, exceeded: bool)

  function Reserve(t: Text, items: seq<Item>, remaining: nat): Reservation {
    if items == [] then Reservation([], 0, remaining, false)
    else if !HeaderOk(t, items[0]) then
      var r := Reserve(t, items[1..], remaining);
      r.(dropped := r.dropped + 1)
    else if Cost(items[0]) > remaining then Reservation([], |items|, remaining, true)
    else
      var r := Reserve(t, items[1..], remaining - Cost(items[0]));
      r.(accepted := [items[0]] + r.accepted)
  }

  // ---- second pass: descriptions ----

  datatype Descriptor = Descriptor(kind: Kind, name: string, description: Option<string>)

  datatype Outcome = Outcome(descriptor: Descriptor, truncated: nat, remaining: nat)

  function DescribeOne(t: Text, it: Item, remaining: nat): Outcome
    requires it.Item?
  {
    var bare := Descriptor(it.kind, it.name, None);
    if it.description.None? then Outcome(bare, 0, remaining)
    else
      var scanLimit := if remaining < MAX_RAW_DESCRIPTION then remaining else MAX_RAW_DESCRIPTION;
      var cost := LengthUpTo(|it.description.value|, scanLimit);
      var left := if cost > remaining then 0 else remaining - cost;
      if cost > scanLimit then Outcome(bare, 1, left)
      else
        var cleaned := t.clean(it.description.value);
        var kept := Truncate(cleaned, MAX_DESCRIPTION);
        Outcome(if kept == "" then bare else bare.(description := Some(kept)),
                if kept != cleaned || (it.description.value != "" && kept == "") then 1 else 0,
                left)
  }

  datatype Described = Described(descriptors: seq<Descriptor>, truncated: nat, remaining: nat)

  function Describe(t: Text, items: seq<Item>, remaining: nat): (r: Described)
    requires forall it <- items :: it.Item?
    ensures |r.descriptors| == |items|
  {
    if items == [] then Described([], 0, remaining)
    else
      assert items[0] in items;
      var one := DescribeOne(t, items[0], remaining);
      var rest := Describe(t, items[1..], one.remaining);
      Described([one.descriptor] + rest.descriptors, one.truncated + rest.truncated, rest.remaining)
  }

  // ---- canonical order ----

  function SortKey(it: Item): string
    requires it.Item?
  {
    KindName(it.kind) + ":" + it.name
  }

  /** A key and the position it came from: the order of a stable sort. */
  predicate RankLess(a: (string, nat), b: (string, nat)) {
    StringLess(a.0, b.0) || (a.0 == b.0 && a.1 < b.1)
  }

  lemma RankOrder()
    ensures StrictTotal(RankLess)
  {
    StringOrder();
  }

  function Ranks(items: seq<Item>): set<(string, nat)>
    requires forall it <- items :: it.Item?
  {
    set i: nat | i < |items| :: (SortKey(items[i]), i)
  }

  /** The accepted items' positions in the order their descriptions are looked at. */
  function Order(items: seq<Item>): (r: seq<(string, nat)>)
    requires forall it <- items :: it.Item?
    ensures forall p <- r :: p.1 < |items| && p.0 == SortKey(items[p.1])
  {
    RankOrder();
    OrderedLists(Ranks(items), RankLess);
    var r := Ordered(Ranks(items), RankLess);
    assert forall p <- r :: p in Elements(r);
    r
  }

  function Arranged(items: seq<Item>, order: seq<(string, nat)>): (r: seq<Item>)
    requires forall p <- order :: p.1 < |items|
    requires forall it <- items :: it.Item?
    ensures forall it <- r :: it.Item?
  {
    seq(|order|, i requires 0 <= i < |order| => items[order[i].1])
  }

  function Sorted(items: seq<Item>): (r: seq<Item>)
    requires forall it <- items :: it.Item?
    ensures forall it <- r :: it.Item?
  {
    Arranged(items, Order(items))
  }

  /** Every position occurs once in the order. */
  lemma OrderCovers(items: seq<Item>, i: nat) returns (k: nat)
    requires (forall it <- items :: it.Item?) && i < |items|
    ensures k < |Order(items)| && Order(items)[k] == (SortKey(items[i]), i)
  {
    RankOrder();
    OrderedLists(Ranks(items), RankLess);
    var order := Order(items);
    assert (SortKey(items[i]), i) in Elements(order);
    k :| 0 <= k < |order| && order[k] == (SortKey(items[i]), i);
  }

  lemma OrderDistinct(items: seq<Item>, j: nat, k: nat)
    requires (forall it <- items :: it.Item?) && j < k < |Order(items)|
    ensures Order(items)[j].1 != Order(items)[k].1
  {
    RankOrder();
    OrderedLists(Ranks(items), RankLess);
    var order := Order(items);
    assert RankLess(order[j], order[k]) && order[j] in order && order[k] in order;
  }

  predicate Listed(items: seq<Item>, i: nat, k: nat)
    requires forall it <- items :: it.Item?
  {
    k < |Order(items)| && Order(items)[k].1 == i
  }

  ghost function PositionOf(items: seq<Item>, i: nat): (k: nat)
    requires (forall it <- items :: it.Item?) && i < |items|
    ensures Listed(items, i, k)
  {
    assert exists k: nat :: Listed(items, i, k) by {
      var k := OrderCovers(items, i);
      assert Listed(items, i, k);
    }
    var k: nat :| Listed(items, i, k);
    k
  }

  /** Descriptors made in canonical order, put back where their items stand. */
  ghost function InInputOrder(items: seq<Item>, ds: seq<Descriptor>): (r: seq<Descriptor>)
    requires (forall it <- items :: it.Item?) && |ds| == |Order(items)|
    ensures |r| == |items| && forall i: nat | i < |items| :: r[i] == ds[PositionOf(items, i)]
  {
    seq(|items|, i requires 0 <= i < |items| => assert Listed(items, i, PositionOf(items, i)); ds[PositionOf(items, i)])
  }

  // ---- the catalog ----

  datatype Availability = KnownEmpty | KnownNonempty | Unknown

  datatype Diagnostics = Diagnostics(received: nat, accepted: nat, truncated: nat, dropped: nat)

  datatype Normalized = Normalized(availability: Availability, skills: seq<Descriptor>, tools: seq<Descriptor>,
                                   diagnostics: Diagnostics, budgetExceeded: bool)

  const UNCLASSIFIED := Normalized(Unknown, [], [], Diagnostics(0, 0, 0, 0), false)

  function OfKind(ds: seq<Descriptor>, kind: Kind): seq<Descriptor> {
    if ds == [] then [] else (if ds[0].kind == kind then [ds[0]] else []) + OfKind(ds[1..], kind)
  }

  function Processed(items: seq<Item>): seq<Item> {
    if |items| <= MAX_ITEMS then items else items[..MAX_ITEMS]
  }

  function AvailabilityOf(received: nat, dropped: nat): Availability {
    if received == 0 then KnownEmpty else if dropped > 0 then Unknown else KnownNonempty
  }

  lemma {:induction false} AcceptedAreItems(t: Text, items: seq<Item>, remaining: nat)
    ensures forall it <- Reserve(t, items, remaining).accepted :: HeaderOk(t, it) && it in items
    decreases |items|
  {
    if items != [] {
      if !HeaderOk(t, items[0]) {
        AcceptedAreItems(t, items[1..], remaining);
      } else if Cost(items[0]) <= remaining {
        AcceptedAreItems(t, items[1..], remaining - Cost(items[0]));
      }
    }
  }

  /** The result after both passes. */
  ghost function Finish(t: Text, received: nat, dropped: nat, accepted: seq<Item>, remaining: nat, exceeded: bool): Normalized
    requires forall it <- accepted :: it.Item?
  {
    var d := Describe(t, Sorted(accepted), remaining);
    var ds := InInputOrder(accepted, d.descriptors);
    Normalized(AvailabilityOf(received, dropped), OfKind(ds, Skill), OfKind(ds, McpTool),
               Diagnostics(received, |accepted|, d.truncated, dropped), exceeded)
  }

  /** `normalizeCapabilityCatalog`; None stands for an absent catalog or one that is no array. */
  ghost function Normalize(t: Text, input: Option<seq<Item>>): Normalized {
    match input
    case None => UNCLASSIFIED
    case Some(items) => NormalizeItems(t, items)
  }

  ghost function NormalizeItems(t: Text, items: seq<Item>): Normalized {
    AcceptedAreItems(t, Processed(items), BUDGET);
    Settle(t, |items|, |items| - |Processed(items)|, Reserve(t, Processed(items), BUDGET))
  }

  ghost function Settle(t: Text, received: nat, unprocessed: nat, r: Reservation): Normalized
    requires forall it <- r.accepted :: it.Item?
  {
    Finish(t, received, unprocessed + r.dropped, r.accepted, r.remaining, unprocessed > 0 || r.exceeded)
  }

  method ReserveIdentities(t: Text, items: seq<Item>) returns (r: Reservation)
    ensures r == Reserve(t, items, BUDGET)
  {
    var accepted: seq<Item> := [];
    var dropped := 0;
    var remaining: int := BUDGET;
    var i := 0;
    while i < |items|
      invariant 0 <= i <= |items| && remaining >= 0
      invariant var all, rest := Reserve(t, items, BUDGET), Reserve(t, items[i..], remaining);
                all == Reservation(accepted + rest.accepted, dropped + rest.dropped, rest.remaining, rest.exceeded)
    {
      var it := items[i];
      assert items[i..][0] == it && items[i..][1..] == items[i + 1..];
      if !HeaderOk(t, it) {
        dropped := dropped + 1;
      } else {
        var length := BoundedCodePointLength(it.name, MAX_NAME);
        var cost := length + |KindName(it.kind)| + 32;
        if cost > remaining {
          return Reservation(accepted, dropped + |items| - i, remaining, true);
        }
        remaining := remaining - cost;
        accepted := accepted + [it];
      }
      i := i + 1;
    }
    r := Reservation(accepted, dropped, remaining, false);
  }

  method SpendOnDescriptions(t: Text, accepted: seq<Item>, budget: nat)
    returns (ds: seq<Descriptor>, truncated: nat, remaining: int)
    requires forall it <- accepted :: it.Item?
    ensures var d := Describe(t, Sorted(accepted), budget);
            ds == InInputOrder(accepted, d.descriptors) && truncated == d.truncated && remaining == d.remaining
  {
    var order := Order(accepted);
    ds := Bare(accepted);
    truncated, remaining := 0, budget;
    PassStarts(t, accepted, budget);
    var k := 0;
    while k < |order|
      invariant 0 <= k <= |order| && remaining >= 0 && Passed(t, accepted, budget, k, ds, truncated, remaining)
    {
      PassStep(t, accepted, budget, k, ds, truncated, remaining);
      var position := order[k].1;
      var one := DescribeOne(t, accepted[position], remaining);
      ds := ds[position := one.descriptor];
      truncated := truncated + one.truncated;
      remaining := one.remaining;
      k := k + 1;
    }
    PassEnds(t, accepted, budget, ds, truncated, remaining);
  }

  /** The second pass after its first `k` descriptions. */
  ghost predicate Passed(t: Text, accepted: seq<Item>, budget: nat, k: nat, ds: seq<Descriptor>, truncated: nat, remaining: nat)
    requires forall it <- accepted :: it.Item?
  {
    var sorted := Sorted(accepted);
    var d := Describe(t, sorted, budget);
    && k <= |sorted| && |ds| == |accepted|
    && Remainder(t, sorted, k, d, truncated, remaining) && Filled(Order(accepted), k, ds, d.descriptors)
  }

  lemma PassStarts(t: Text, accepted: seq<Item>, budget: nat)
    requires forall it <- accepted :: it.Item?
    ensures Passed(t, accepted, budget, 0, Bare(accepted), 0, budget)
  {
    assert Sorted(accepted)[0..] == Sorted(accepted);
  }

  lemma PassStep(t: Text, accepted: seq<Item>, budget: nat, k: nat, ds: seq<Descriptor>, truncated: nat, remaining: nat)
    requires (forall it <- accepted :: it.Item?) && k < |Order(accepted)|
    requires Passed(t, accepted, budget, k, ds, truncated, remaining)
    ensures var position := Order(accepted)[k].1;
            && position < |accepted| == |ds| && accepted[position].Item?
            && var one := DescribeOne(t, accepted[position], remaining);
               Passed(t, accepted, budget, k + 1, ds[position := one.descriptor], truncated + one.truncated, one.remaining)
  {
    var d := Describe(t, Sorted(accepted), budget);
    FillStep(accepted, k, ds, d.descriptors);
    RemainderStep(t, Sorted(accepted), k, d, truncated, remaining);
  }

  lemma PassEnds(t: Text, accepted: seq<Item>, budget: nat, ds: seq<Descriptor>, truncated: nat, remaining: nat)
    requires (forall it <- accepted :: it.Item?) && Passed(t, accepted, budget, |Order(accepted)|, ds, truncated, remaining)
    ensures var d := Describe(t, Sorted(accepted), budget);
            ds == InInputOrder(accepted, d.descriptors) && truncated == d.truncated && remaining == d.remaining
  {
    FilledAll(accepted, ds, Describe(t, Sorted(accepted), budget).descriptors);
  }

  function Bare(items: seq<Item>): seq<Descriptor>
    requires forall it <- items :: it.Item?
  {
    seq(|items|, i requires 0 <= i < |items| => assert items[i] in items; Descriptor(items[i].kind, items[i].name, None))
  }

  ghost predicate Filled(order: seq<(string, nat)>, k: nat, ds: seq<Descriptor>, done: seq<Descriptor>) {
    k <= |order| <= |done| && forall j | 0 <= j < k :: order[j].1 < |ds| && ds[order[j].1] == done[j]
  }

  lemma FillStep(items: seq<Item>, k: nat, ds: seq<Descriptor>, done: seq<Descriptor>)
    requires (forall it <- items :: it.Item?) && k < |Order(items)| && |ds| == |items|
    requires Filled(Order(items), k, ds, done)
    ensures Order(items)[k] in Order(items)
    ensures Filled(Order(items), k + 1, ds[Order(items)[k].1 := done[k]], done)
  {
    var order := Order(items);
    assert order[k] in order;
    forall j: nat | j < k ensures order[j].1 != order[k].1 { OrderDistinct(items, j, k); }
  }

  lemma FilledAll(items: seq<Item>, ds: seq<Descriptor>, done: seq<Descriptor>)
    requires (forall it <- items :: it.Item?) && |ds| == |items| && |done| == |Order(items)|
    requires Filled(Order(items), |Order(items)|, ds, done)
    ensures ds == InInputOrder(items, done)
  {
    forall i: nat | i < |items| ensures ds[i] == InInputOrder(items, done)[i] {
      assert Listed(items, i, PositionOf(items, i));
    }
  }

  /** What is left to describe completes what was described. */
  ghost predicate Remainder(t: Text, sorted: seq<Item>, k: nat, d: Described, truncated: nat, remaining: nat)
    requires k <= |sorted| && forall it <- sorted :: it.Item?
  {
    var rest := Describe(t, sorted[k..], remaining);
    && |d.descriptors| == |sorted| && d.descriptors[k..] == rest.descriptors
    && d.truncated == truncated + rest.truncated && d.remaining == rest.remaining
  }

  lemma RemainderStep(t: Text, sorted: seq<Item>, k: nat, d: Described, truncated: nat, remaining: nat)
    requires k < |sorted| && (forall it <- sorted :: it.Item?) && Remainder(t, sorted, k, d, truncated, remaining)
    ensures sorted[k] in sorted
    ensures var one := DescribeOne(t, sorted[k], remaining);
            d.descriptors[k] == one.descriptor && Remainder(t, sorted, k + 1, d, truncated + one.truncated, one.remaining)
  {
    assert sorted[k..][0] == sorted[k] && sorted[k..][1..] == sorted[k + 1..];
    assert d.descriptors[k..][0] == d.descriptors[k] && d.descriptors[k..][1..] == d.descriptors[k + 1..];
  }

  /** The normaliser with its two passes. */
  method NormalizeCatalog(t: Text, input: Option<seq<Item>>) returns (r: Normalized)
    ensures r == Normalize(t, input)
  {
    if input.None? {
      return UNCLASSIFIED;
    }
    var items := input.value;
    var processed := Processed(items);
    var kept := ReserveIdentities(t, processed);
    AcceptedAreItems(t, processed, BUDGET);
    var ds, truncated, _ := SpendOnDescriptions(t, kept.accepted, kept.remaining);
    var dropped := |items| - |processed| + kept.dropped;
    r := Normalized(AvailabilityOf(|items|, dropped), OfKind(ds, Skill), OfKind(ds, McpTool),
                    Diagnostics(|items|, |kept.accepted|, truncated, dropped),
                    |items| > MAX_ITEMS || kept.exceeded);
  }

  // ---- accounting ----

  lemma {:induction false} ReserveCounts(t: Text, items: seq<Item>, remaining: nat)
    ensures var r := Reserve(t, items, remaining);
            |r.accepted| + r.dropped == |items| && r.remaining <= remaining
    decreases |items|
  {
    if items != [] {
      if !HeaderOk(t, items[0]) {
        ReserveCounts(t, items[1..], remaining);
      } else if Cost(items[0]) <= remaining {
        ReserveCounts(t, items[1..], remaining - Cost(items[0]));
      }
    }
  }

  lemma {:induction false} OfKindCounts(ds: seq<Descriptor>)
    ensures |OfKind(ds, Skill)| + |OfKind(ds, McpTool)| == |ds|
  {
    if ds != [] { OfKindCounts(ds[1..]); }
  }

  /** Every received item is accepted or dropped, and every accepted one is listed. */
  lemma AcceptedPlusDropped(t: Text, items: seq<Item>)
    ensures var n := Normalize(t, Some(items));
            && n.diagnostics.accepted + n.diagnostics.dropped == n.diagnostics.received == |items|
            && |n.skills| + |n.tools| == n.diagnostics.accepted
            && (n.budgetExceeded ==> n.availability == Unknown)
  {
    ReserveCounts(t, Processed(items), BUDGET);
    var r := Reserve(t, Processed(items), BUDGET);
    AcceptedAreItems(t, Processed(items), BUDGET);
    var d := Describe(t, Sorted(r.accepted), r.remaining);
    OfKindCounts(InInputOrder(r.accepted, d.descriptors));
    ExceededDrops(t, Processed(items), BUDGET);
  }

  lemma {:induction false} ExceededDrops(t: Text, items: seq<Item>, remaining: nat)
    ensures var r := Reserve(t, items, remaining); r.exceeded ==> r.dropped > 0
    decreases |items|
  {
    if items != [] {
      if !HeaderOk(t, items[0]) {
        ExceededDrops(t, items[1..], remaining);
      } else if Cost(items[0]) <= remaining {
        ExceededDrops(t, items[1..], remaining - Cost(items[0]));
      }
    }
  }

  /** Two items that differ at most in their descriptions. */
  predicate SameHeader(a: Item, b: Item) {
    (a.Malformed? && b.Malformed?) || (a.Item? && b.Item? && a.kind == b.kind && a.name == b.name)
  }

  predicate SameHeaders(a: seq<Item>, b: seq<Item>) {
    |a| == |b| && forall i | 0 <= i < |a| :: SameHeader(a[i], b[i])
  }

  /** Which identities are accepted does not depend on any description. */
  lemma {:induction false} DescriptionsDoNotDecide(t: Text, a: seq<Item>, b: seq<Item>, remaining: nat)
    requires SameHeaders(a, b)
    ensures var p, q := Reserve(t, a, remaining), Reserve(t, b, remaining);
            SameHeaders(p.accepted, q.accepted) && p.(accepted := []) == q.(accepted := [])
    decreases |a|
  {
    if a != [] {
      assert SameHeader(a[0], b[0]) && SameHeaders(a[1..], b[1..]);
      if !HeaderOk(t, a[0]) {
        DescriptionsDoNotDecide(t, a[1..], b[1..], remaining);
      } else if Cost(a[0]) <= remaining {
        DescriptionsDoNotDecide(t, a[1..], b[1..], remaining - Cost(a[0]));
      }
    }
  }
}
