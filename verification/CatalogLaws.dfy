/**
  What a normalised capability catalog contains, for every input: which identities the budget admits,
  where each goes, what becomes of each description, and what the diagnostics count
  (src/akinator/capabilities.ts:245-305).
 */
module CatalogLaws {
  import opened Options
  import opened Sequences
  import opened Ordering
  import opened CapabilityCatalog

  // ---- the first pass ----

  /** What an identity takes from the budget. */
  function IdentityCost(it: Item): nat {
    if it.Malformed? then 0 else |it.name| + (if it.kind.Skill? then 5 else 8) + 32
  }

  function TotalCost(items: seq<Item>): nat {
    if items == [] then 0 else IdentityCost(items[0]) + TotalCost(items[1..])
  }

  function WellFormedHeader(t: Text): Item -> bool {
    (it: Item) => it.Item? && it.name != "" && |it.name| < 301 && t.plain(it.name)
  }

  /**
    The first pass accepts the well-formed items before the cut, in order; the cut is the end, or
    the first well-formed item that the budget left does not cover.
   */
  ghost predicate Admits(t: Text, items: seq<Item>, budget: nat, cut: nat, r: Reservation) {
    && cut <= |items| && r.accepted == Filter(items[..cut], WellFormedHeader(t))
    && r.dropped == |items| - |r.accepted|
    && TotalCost(r.accepted) <= budget && r.remaining == budget - TotalCost(r.accepted)
    && (r.exceeded <==> cut < |items|)
    && (cut < |items| ==> WellFormedHeader(t)(items[cut]) && IdentityCost(items[cut]) > r.remaining)
  }

  lemma {:induction false} ReservedExactly(t: Text, items: seq<Item>, budget: nat) returns (cut: nat)
    ensures Admits(t, items, budget, cut, Reserve(t, items, budget))
    decreases |items|
  {
    cut := 0;
    if items != [] {
      if !HeaderOk(t, items[0]) {
        cut := ReservedExactly(t, items[1..], budget);
        cut := AdmitsMore(t, items, budget, cut, Reserve(t, items[1..], budget));
      } else if Cost(items[0]) <= budget {
        cut := ReservedExactly(t, items[1..], budget - Cost(items[0]));
        cut := AdmitsMore(t, items, budget, cut, Reserve(t, items[1..], budget - Cost(items[0])));
      }
    }
  }

  lemma AdmitsMore(t: Text, items: seq<Item>, budget: nat, cut: nat, rest: Reservation) returns (cut': nat)
    requires items != [] && (HeaderOk(t, items[0]) ==> Cost(items[0]) <= budget)
    requires Admits(t, items[1..], if HeaderOk(t, items[0]) then budget - Cost(items[0]) else budget, cut, rest)
    ensures Admits(t, items, budget, cut',
                   if HeaderOk(t, items[0]) then rest.(accepted := [items[0]] + rest.accepted)
                   else rest.(dropped := rest.dropped + 1))
  {
    cut' := cut + 1;
    assert items[..cut'][0] == items[0] && items[..cut'][1..] == items[1..][..cut];
    assert cut < |items[1..]| ==> items[1..][cut] == items[cut'];
  }

  // ---- the second pass ----

  /** What looking at a description takes from the budget left: its length, but never more than one beyond the raw limit. */
  function Spent(it: Item, left: nat): nat
    requires it.Item?
  {
    if it.description.None? then 0 else Min(|it.description.value|, Min(MAX_RAW_DESCRIPTION + 1, left))
  }

  /** The descriptor of an item whose turn comes with this budget left. */
  predicate Becomes(t: Text, it: Item, left: nat, d: Descriptor)
    requires it.Item?
  {
    && d.kind == it.kind && d.name == it.name
    && d.description ==
       if it.description.None? || |it.description.value| > left || |it.description.value| > MAX_RAW_DESCRIPTION then None
       else if t.clean(it.description.value) == "" then None
       else Some(Cut(t.clean(it.description.value)))
  }

  /** A text of at most the limit, the last character an ellipsis where something was cut off. */
  function Cut(s: string): string {
    if |s| <= MAX_DESCRIPTION then s else s[..MAX_DESCRIPTION - 1] + "…"
  }

  /** The item had a description of which something is missing. */
  predicate Lossy(t: Text, it: Item, d: Descriptor)
    requires it.Item?
  {
    it.description.Some? &&
    (if d.description.None? then it.description.value != "" else d.description.value != t.clean(it.description.value))
  }

  lemma OneTurn(t: Text, it: Item, left: nat)
    requires it.Item?
    ensures var one := DescribeOne(t, it, left);
            && Becomes(t, it, left, one.descriptor) && one.remaining == left - Spent(it, left)
            && one.truncated == if Lossy(t, it, one.descriptor) then 1 else 0
  {
  }

  lemma {:induction false} DescribeSnoc(t: Text, front: seq<Item>, x: Item, budget: nat)
    requires x.Item? && forall it <- front :: it.Item?
    ensures forall it <- front + [x] :: it.Item?
    ensures var d := Describe(t, front, budget);
            var one := DescribeOne(t, x, d.remaining);
            Describe(t, front + [x], budget)
            == Described(d.descriptors + [one.descriptor], d.truncated + one.truncated, one.remaining)
    decreases |front|
  {
    if front == [] {
      assert front + [x] == [x];
      assert Describe(t, [x][1..], DescribeOne(t, x, budget).remaining).descriptors == [];
    } else {
      assert front[0] in front && (front + [x])[0] == front[0] && (front + [x])[1..] == front[1..] + [x];
      DescribeSnoc(t, front[1..], x, DescribeOne(t, front[0], budget).remaining);
    }
  }

  /** The second pass over items in the order of their turns. */
  ghost predicate Pays(t: Text, items: seq<Item>, budget: nat, lefts: seq<nat>, d: Described)
    requires forall it <- items :: it.Item?
  {
    && |lefts| == |items| + 1 && |d.descriptors| == |items| && lefts[0] == budget && lefts[|items|] == d.remaining
    && (forall k: nat | k < |items| :: Turn(t, items[k], lefts[k], lefts[k + 1], d.descriptors[k]))
    && d.truncated == |LossyTurns(t, items, d.descriptors)|
  }

  predicate Turn(t: Text, it: Item, left: nat, left': nat, d: Descriptor) {
    it.Item? && Becomes(t, it, left, d) && left' == left - Spent(it, left)
  }

  predicate LossyTurn(t: Text, items: seq<Item>, ds: seq<Descriptor>, k: nat) {
    k < |items| && k < |ds| && items[k].Item? && Lossy(t, items[k], ds[k])
  }

  function LossyTurns(t: Text, items: seq<Item>, ds: seq<Descriptor>): set<nat> {
    set k: nat | k < |items| && LossyTurn(t, items, ds, k)
  }

  lemma {:induction false} DescribedExactly(t: Text, items: seq<Item>, budget: nat) returns (lefts: seq<nat>)
    requires forall it <- items :: it.Item?
    ensures Pays(t, items, budget, lefts, Describe(t, items, budget))
    decreases |items|
  {
    if items == [] {
      lefts := [budget];
    } else {
      var last := |items| - 1;
      var front, x := items[..last], items[last];
      assert x in items && items == front + [x];
      lefts := DescribedExactly(t, front, budget);
      DescribeSnoc(t, front, x, budget);
      lefts := PaysMore(t, front, x, budget, lefts, Describe(t, front, budget));
    }
  }

  lemma PaysMore(t: Text, front: seq<Item>, x: Item, budget: nat, lefts: seq<nat>, d: Described) returns (lefts': seq<nat>)
    requires x.Item? && (forall it <- front :: it.Item?) && Pays(t, front, budget, lefts, d)
    ensures forall it <- front + [x] :: it.Item?
    ensures var one := DescribeOne(t, x, d.remaining);
            Pays(t, front + [x], budget, lefts', Described(d.descriptors + [one.descriptor], d.truncated + one.truncated, one.remaining))
  {
    var n, one := |front|, DescribeOne(t, x, d.remaining);
    OneTurn(t, x, d.remaining);
    lefts' := lefts + [one.remaining];
    var items, ds := front + [x], d.descriptors + [one.descriptor];
    forall k: nat | k < n + 1 ensures Turn(t, items[k], lefts'[k], lefts'[k + 1], ds[k]) {
      if k < n { assert Turn(t, front[k], lefts[k], lefts[k + 1], d.descriptors[k]); }
    }
    LossyMore(t, front, x, d.descriptors, one.descriptor);
  }

  lemma LossyMore(t: Text, front: seq<Item>, x: Item, ds: seq<Descriptor>, d: Descriptor)
    requires x.Item? && |ds| == |front|
    ensures |LossyTurns(t, front + [x], ds + [d])| == |LossyTurns(t, front, ds)| + if Lossy(t, x, d) then 1 else 0
  {
    var a, b := LossyTurns(t, front, ds), LossyTurns(t, front + [x], ds + [d]);
    forall k: nat | k < |front| ensures k in b <==> k in a {
      assert LossyTurn(t, front + [x], ds + [d], k) <==> LossyTurn(t, front, ds, k);
    }
    assert |front| in b <==> LossyTurn(t, front + [x], ds + [d], |front|);
    assert b == if Lossy(t, x, d) then a + {|front|} else a;
  }

  // ---- the whole catalog ----

  /** Every index once, by kind and name, equal ones in input order. */
  ghost predicate Turns(items: seq<Item>, turns: seq<nat>)
    requires forall it <- items :: it.Item?
  {
    && (forall k | 0 <= k < |turns| :: turns[k] < |items|)
    && (forall i: nat | i < |items| :: i in turns)
    && (forall a, b | 0 <= a < b < |turns| :: InTurn(items, turns[a], turns[b]))
  }

  predicate InTurn(items: seq<Item>, i: nat, j: nat)
    requires forall it <- items :: it.Item?
  {
    i < |items| && j < |items| && RankLess((SortKey(items[i]), i), (SortKey(items[j]), j))
  }

  ghost function TurnsOf(items: seq<Item>): seq<nat>
    requires forall it <- items :: it.Item?
  {
    seq(|Order(items)|, k requires 0 <= k < |Order(items)| => Order(items)[k].1)
  }

  lemma TurnsAreOrder(items: seq<Item>)
    requires forall it <- items :: it.Item?
    ensures Turns(items, TurnsOf(items))
  {
    var order, turns := Order(items), TurnsOf(items);
    assert forall k | 0 <= k < |order| :: order[k] in order;
    forall i: nat | i < |items| ensures i in turns {
      var k := OrderCovers(items, i);
      assert turns[k] == i;
    }
    RankOrder();
    OrderedLists(Ranks(items), RankLess);
    forall a, b | 0 <= a < b < |turns| ensures InTurn(items, turns[a], turns[b]) {
      assert RankLess(order[a], order[b]) && order[a] in order && order[b] in order;
    }
  }

  /** Descriptors of the accepted items, where these stand, paid for in their turns. */
  ghost predicate DescribedInTurn(t: Text, accepted: seq<Item>, turns: seq<nat>, budget: nat, lefts: seq<nat>,
                                  ds: seq<Descriptor>)
    requires forall it <- accepted :: it.Item?
  {
    && Turns(accepted, turns) && |ds| == |accepted| && |lefts| == |turns| + 1 && lefts[0] == budget
    && forall k: nat | k < |turns| :: turns[k] < |accepted| && Turn(t, accepted[turns[k]], lefts[k], lefts[k + 1], ds[turns[k]])
  }

  /**
    A normalised catalog: the accepted items' descriptors in input order, split by kind, their
    descriptions paid for in canonical order, and diagnostics that count what was received, accepted,
    shortened or left out, and dropped.
   */
  ghost predicate Describes(t: Text, items: seq<Item>, r: Reservation, turns: seq<nat>, lefts: seq<nat>, ds: seq<Descriptor>,
                            n: Normalized)
    requires forall it <- r.accepted :: it.Item?
  {
    && DescribedInTurn(t, r.accepted, turns, r.remaining, lefts, ds)
    && n.skills == Filter(ds, (d: Descriptor) => d.kind.Skill?) && n.tools == Filter(ds, (d: Descriptor) => d.kind.McpTool?)
    && n.diagnostics.received == |items| && n.diagnostics.accepted == |r.accepted|
    && n.diagnostics.dropped == |items| - |r.accepted|
    && n.diagnostics.truncated == |set k: nat | k < |turns| && LossyAt(t, r.accepted, ds, turns[k])|
    && n.budgetExceeded == (|items| > MAX_ITEMS || r.exceeded)
    && n.availability == if items == [] then KnownEmpty else if |r.accepted| == |items| then KnownNonempty else Unknown
  }

  predicate LossyAt(t: Text, accepted: seq<Item>, ds: seq<Descriptor>, i: nat) {
    LossyTurn(t, accepted, ds, i)
  }

  lemma {:induction false} OfKindIsFilter(ds: seq<Descriptor>, kind: Kind)
    ensures OfKind(ds, kind) == Filter(ds, (d: Descriptor) => d.kind == kind)
  {
    if ds != [] { OfKindIsFilter(ds[1..], kind); }
  }

  lemma Split(ds: seq<Descriptor>)
    ensures OfKind(ds, Skill) == Filter(ds, (d: Descriptor) => d.kind.Skill?)
    ensures OfKind(ds, McpTool) == Filter(ds, (d: Descriptor) => d.kind.McpTool?)
  {
    OfKindIsFilter(ds, Skill);
    OfKindIsFilter(ds, McpTool);
    SameFilter(ds, (d: Descriptor) => d.kind == Skill, (d: Descriptor) => d.kind.Skill?);
    SameFilter(ds, (d: Descriptor) => d.kind == McpTool, (d: Descriptor) => d.kind.McpTool?);
  }

  /** Where the descriptor of each turn stands. */
  lemma PutBack(items: seq<Item>, ds: seq<Descriptor>, k: nat)
    requires (forall it <- items :: it.Item?) && |ds| == |Order(items)| && k < |ds|
    ensures Order(items)[k].1 < |items| && InInputOrder(items, ds)[Order(items)[k].1] == ds[k]
  {
    var order := Order(items);
    assert order[k] in order;
    var i := order[k].1;
    assert Listed(items, i, PositionOf(items, i));
    var p := PositionOf(items, i);
    if p < k { OrderDistinct(items, p, k); }
    if k < p { OrderDistinct(items, k, p); }
  }

  /** The descriptions, from the order of turns to the order of the input. */
  lemma InTurnFromOrder(t: Text, accepted: seq<Item>, budget: nat, lefts: seq<nat>)
    requires (forall it <- accepted :: it.Item?) && Pays(t, Sorted(accepted), budget, lefts, Describe(t, Sorted(accepted), budget))
    ensures var d := Describe(t, Sorted(accepted), budget);
            var ds := InInputOrder(accepted, d.descriptors);
            && DescribedInTurn(t, accepted, TurnsOf(accepted), budget, lefts, ds)
            && d.truncated == |set k: nat | k < |TurnsOf(accepted)| && LossyAt(t, accepted, ds, TurnsOf(accepted)[k])|
  {
    var sorted, turns := Sorted(accepted), TurnsOf(accepted);
    var d := Describe(t, sorted, budget);
    var ds := InInputOrder(accepted, d.descriptors);
    TurnsAreOrder(accepted);
    forall k: nat | k < |turns|
      ensures turns[k] < |accepted| && sorted[k] == accepted[turns[k]] && ds[turns[k]] == d.descriptors[k]
    {
      PutBack(accepted, d.descriptors, k);
    }
    forall k: nat | k < |turns| ensures Turn(t, accepted[turns[k]], lefts[k], lefts[k + 1], ds[turns[k]]) {
      assert Turn(t, sorted[k], lefts[k], lefts[k + 1], d.descriptors[k]);
    }
    forall k: nat | k < |turns| ensures LossyAt(t, accepted, ds, turns[k]) <==> LossyTurn(t, sorted, d.descriptors, k) {
      assert sorted[k] == accepted[turns[k]] && ds[turns[k]] == d.descriptors[k];
    }
    assert (set k: nat | k < |turns| && LossyAt(t, accepted, ds, turns[k])) == LossyTurns(t, sorted, d.descriptors);
  }

  /** What the normalised catalog of any input is. */
  lemma NormalizedExactly(t: Text, items: seq<Item>)
    returns (cut: nat, turns: seq<nat>, lefts: seq<nat>, ds: seq<Descriptor>)
    ensures var r := Reserve(t, Take(items, MAX_ITEMS), BUDGET);
            && Admits(t, Take(items, MAX_ITEMS), BUDGET, cut, r) && (forall it <- r.accepted :: it.Item?)
            && Describes(t, items, r, turns, lefts, ds, Normalize(t, Some(items)))
  {
    var processed := Take(items, MAX_ITEMS);
    assert processed == Processed(items);
    var r := Reserve(t, processed, BUDGET);
    AcceptedAreItems(t, processed, BUDGET);
    cut := ReservedExactly(t, processed, BUDGET);
    lefts := DescribedExactly(t, Sorted(r.accepted), r.remaining);
    turns := TurnsOf(r.accepted);
    ds := InInputOrder(r.accepted, Describe(t, Sorted(r.accepted), r.remaining).descriptors);
    InTurnFromOrder(t, r.accepted, r.remaining, lefts);
    Split(ds);
  }

  /** Every listed name is a plain text, and no description is empty. */
  predicate Presentable(t: Text, d: Descriptor) {
    t.plain(d.name) && d.description != Some("")
  }

  lemma ListedArePresentable(t: Text, items: seq<Item>)
    ensures var n := Normalize(t, Some(items));
            (forall d <- n.skills :: Presentable(t, d)) && (forall d <- n.tools :: Presentable(t, d))
  {
    var r := Reserve(t, Take(items, MAX_ITEMS), BUDGET);
    var _, turns, lefts, ds := NormalizedExactly(t, items);
    AcceptedAreItems(t, Take(items, MAX_ITEMS), BUDGET);
    forall d <- ds ensures Presentable(t, d) { DescriptorIsPresentable(t, r.accepted, turns, r.remaining, lefts, ds, d); }
    forall d { FilterMembers(ds, (d: Descriptor) => d.kind.Skill?, d); }
    forall d { FilterMembers(ds, (d: Descriptor) => d.kind.McpTool?, d); }
  }

  lemma DescriptorIsPresentable(t: Text, accepted: seq<Item>, turns: seq<nat>, budget: nat, lefts: seq<nat>,
                                ds: seq<Descriptor>, d: Descriptor)
    requires (forall it <- accepted :: it.Item? && HeaderOk(t, it)) && DescribedInTurn(t, accepted, turns, budget, lefts, ds) && d in ds
    ensures Presentable(t, d)
  {
    var i: nat :| i < |ds| && ds[i] == d;
    assert accepted[i] in accepted && i in turns;
    var k: nat :| k < |turns| && turns[k] == i;
    assert Turn(t, accepted[turns[k]], lefts[k], lefts[k + 1], ds[turns[k]]);
  }

  /** `ds` are descriptors of exactly the accepted items of that kind, in input order. */
  ghost predicate Lists(accepted: seq<Item>, kind: Kind, at: seq<nat>, ds: seq<Descriptor>) {
    && |at| == |ds| && Rising(at)
    && (forall k | 0 <= k < |at| :: at[k] < |accepted| && Names(accepted[at[k]], kind, ds[k]))
    && (forall i: nat | i < |accepted| && accepted[i].Item? && accepted[i].kind == kind :: i in at)
  }

  predicate Names(it: Item, kind: Kind, d: Descriptor) {
    it.Item? && it.kind == d.kind == kind && it.name == d.name
  }

  lemma HeadersKept(t: Text, accepted: seq<Item>, turns: seq<nat>, budget: nat, lefts: seq<nat>, ds: seq<Descriptor>)
    requires (forall it <- accepted :: it.Item?) && DescribedInTurn(t, accepted, turns, budget, lefts, ds)
    ensures forall i: nat | i < |ds| :: accepted[i].Item? && Names(accepted[i], accepted[i].kind, ds[i])
  {
    forall i: nat | i < |ds| ensures accepted[i].Item? && Names(accepted[i], accepted[i].kind, ds[i]) {
      assert accepted[i] in accepted && i in turns;
      var k: nat :| k < |turns| && turns[k] == i;
      assert Turn(t, accepted[turns[k]], lefts[k], lefts[k + 1], ds[turns[k]]);
    }
  }

  /** Skills and tools are the accepted identities of their kind, each once and in input order. */
  lemma ListedByKind(t: Text, items: seq<Item>) returns (skillsAt: seq<nat>, toolsAt: seq<nat>)
    ensures var accepted, n := Reserve(t, Take(items, MAX_ITEMS), BUDGET).accepted, Normalize(t, Some(items));
            Lists(accepted, Skill, skillsAt, n.skills) && Lists(accepted, McpTool, toolsAt, n.tools)
  {
    var accepted := Reserve(t, Take(items, MAX_ITEMS), BUDGET).accepted;
    var _, turns, lefts, ds := NormalizedExactly(t, items);
    HeadersKept(t, accepted, turns, Reserve(t, Take(items, MAX_ITEMS), BUDGET).remaining, lefts, ds);
    skillsAt := FilterExtracts(ds, (d: Descriptor) => d.kind.Skill?);
    toolsAt := FilterExtracts(ds, (d: Descriptor) => d.kind.McpTool?);
    ExtractedNames(accepted, ds, Skill, (d: Descriptor) => d.kind.Skill?, skillsAt);
    ExtractedNames(accepted, ds, McpTool, (d: Descriptor) => d.kind.McpTool?, toolsAt);
  }

  lemma ExtractedNames(accepted: seq<Item>, ds: seq<Descriptor>, kind: Kind, keep: Descriptor -> bool, at: seq<nat>)
    requires |ds| == |accepted| && (forall i: nat | i < |ds| :: accepted[i].Item? && Names(accepted[i], accepted[i].kind, ds[i]))
    requires (forall d :: keep(d) <==> d.kind == kind) && Extracts(ds, keep, at, Filter(ds, keep))
    ensures Lists(accepted, kind, at, Filter(ds, keep))
  {
    var out := Filter(ds, keep);
    forall k | 0 <= k < |at| ensures at[k] < |accepted| && Names(accepted[at[k]], kind, out[k]) {
      assert Points(ds, keep, at[k], out[k]);
    }
    forall i: nat | i < |accepted| && accepted[i].Item? && accepted[i].kind == kind ensures i in at {
      assert keep(ds[i]);
    }
  }
}
