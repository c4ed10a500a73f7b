/** The catalog digest does not depend on the order of the catalog. */
module CatalogDigest {
  import opened Options
  import opened Ordering
  import opened Sequences
  import opened CapabilityCatalog
  import CatalogLaws

  // ---- the digest ----

  /** The string `compareDescriptor` compares. */
  function DescriptorKey(d: Descriptor): string {
    KindName(d.kind) + "\0" + (d.name + "\0" + if d.description.Some? then d.description.value else "")
  }

  function FirstWith(ds: seq<Descriptor>, key: string): (d: Descriptor)
    requires key in KeySet(ds, DescriptorKey)
    ensures d in ds && DescriptorKey(d) == key
  {
    if DescriptorKey(ds[0]) == key then ds[0]
    else
      assert ds == [ds[0]] + ds[1..];
      FirstWith(ds[1..], key)
  }

  /** `canonicalDescriptorSet`: sorted by key, the first of each group kept. */
  function CanonicalSet(ds: seq<Descriptor>): seq<Descriptor> {
    StringOrder();
    OrderedLists(KeySet(ds, DescriptorKey), StringLess);
    var ks := Ordered(KeySet(ds, DescriptorKey), StringLess);
    seq(|ks|, i requires 0 <= i < |ks| => assert ks[i] in Elements(ks); FirstWith(ds, ks[i]))
  }

  /** What is hashed, besides the two constant version numbers. */
  datatype DigestContent = DigestContent(supplied: bool, availability: Availability, diagnostics: Diagnostics,
                                         budgetExceeded: bool, skills: seq<Descriptor>, tools: seq<Descriptor>)

  /** `capabilityCatalogDigest`, up to the final hash. */
  ghost function Digest(t: Text, supplied: bool, input: Option<seq<Item>>): DigestContent {
    DigestOf(supplied, Normalize(t, input))
  }

  function DigestOf(supplied: bool, n: Normalized): DigestContent {
    var skills, tools := CanonicalSet(n.skills), CanonicalSet(n.tools);
    var unique := |skills| + |tools|;
    DigestContent(supplied, n.availability,
                  if n.availability == Unknown then n.diagnostics
                  else Diagnostics(unique, unique, if n.diagnostics.truncated < unique then n.diagnostics.truncated else unique, 0),
                  n.budgetExceeded, skills, tools)
  }

  // ---- identities ----

  predicate SameIdentity(a: Item, b: Item) {
    a.Item? && b.Item? && a.kind == b.kind && a.name == b.name
  }

  ghost predicate DistinctIdentities(items: seq<Item>) {
    forall i, j | 0 <= i < j < |items| :: !SameIdentity(items[i], items[j])
  }

  predicate AllItems(items: seq<Item>) {
    forall it <- items :: it.Item?
  }

  lemma SortKeyIsIdentity(a: Item, b: Item)
    requires a.Item? && b.Item?
    ensures SortKey(a) == SortKey(b) <==> SameIdentity(a, b)
  {
    if SortKey(a) == SortKey(b) {
      assert SortKey(a)[0] == KindName(a.kind)[0] && SortKey(b)[0] == KindName(b.kind)[0];
      var n := |KindName(a.kind)| + 1;
      assert SortKey(a)[n..] == a.name && SortKey(b)[n..] == b.name;
    }
  }

  // ---- permutations ----

  lemma SameMembers<T>(a: seq<T>, b: seq<T>)
    requires multiset(a) == multiset(b)
    ensures |a| == |b| && forall x :: x in a <==> x in b
  {
    assert |a| == |multiset(a)| && |b| == |multiset(b)|;
    assert forall x :: x in a <==> x in multiset(a);
    assert forall x :: x in b <==> x in multiset(b);
  }

  lemma Removed<T>(b: seq<T>, j: nat)
    requires j < |b|
    ensures multiset(b) == multiset(b[..j] + b[j + 1..]) + multiset{b[j]}
  {
    assert b == b[..j] + [b[j]] + b[j + 1..];
  }

  lemma TwiceCounts<T>(b: seq<T>, i: nat, j: nat)
    requires i < j < |b| && b[i] == b[j]
    ensures multiset(b)[b[i]] >= 2
  {
    Removed(b, j);
    assert (b[..j] + b[j + 1..])[i] == b[i];
    assert b[i] in multiset(b[..j] + b[j + 1..]);
  }

  lemma {:induction false} DistinctCounts(a: seq<Item>, x: Item)
    requires DistinctIdentities(a) && x.Item?
    ensures multiset(a)[x] <= 1
    decreases |a|
  {
    if a != [] {
      var rest := a[1..];
      assert a == [a[0]] + rest;
      DistinctCounts(rest, x);
      if a[0] == x && x in rest {
        var j :| 0 <= j < |rest| && rest[j] == x;
        assert SameIdentity(a[0], a[j + 1]);
      }
    }
  }

  lemma DistinctPermuted(a: seq<Item>, b: seq<Item>)
    requires multiset(a) == multiset(b) && DistinctIdentities(a)
    ensures DistinctIdentities(b)
  {
    SameMembers(a, b);
    forall i, j | 0 <= i < j < |b| ensures !SameIdentity(b[i], b[j]) {
      if SameIdentity(b[i], b[j]) {
        assert b[i] in b && b[j] in b;
        SameIdentityIsSame(a, b[i], b[j]);
        TwiceCounts(b, i, j);
        DistinctCounts(a, b[i]);
      }
    }
  }

  lemma SameIdentityIsSame(a: seq<Item>, x: Item, y: Item)
    requires DistinctIdentities(a) && x in a && y in a && SameIdentity(x, y)
    ensures x == y
  {
    var i :| 0 <= i < |a| && a[i] == x;
    var j :| 0 <= j < |a| && a[j] == y;
    assert SameIdentity(a[i], a[j]) && SameIdentity(a[j], a[i]);
  }

  // ---- first pass ----

  function WellFormed(t: Text, items: seq<Item>): (r: seq<Item>)
    ensures |r| <= |items|
  {
    if items == [] then [] else (if HeaderOk(t, items[0]) then [items[0]] else []) + WellFormed(t, items[1..])
  }

  function CostOf(t: Text, it: Item): nat {
    if HeaderOk(t, it) then Cost(it) else 0
  }

  function CostSum(t: Text, items: seq<Item>): nat {
    if items == [] then 0 else CostOf(t, items[0]) + CostSum(t, items[1..])
  }

  lemma {:induction false} ReserveFits(t: Text, items: seq<Item>, remaining: nat)
    requires CostSum(t, items) <= remaining
    ensures Reserve(t, items, remaining)
            == Reservation(WellFormed(t, items), |items| - |WellFormed(t, items)|, remaining - CostSum(t, items), false)
    decreases |items|
  {
    if items != [] {
      ReserveFits(t, items[1..], remaining - CostOf(t, items[0]));
    }
  }

  lemma {:induction false} CostSumAppend(t: Text, a: seq<Item>, b: seq<Item>)
    ensures CostSum(t, a + b) == CostSum(t, a) + CostSum(t, b)
    decreases |a|
  {
    if a == [] {
      assert a + b == b;
    } else {
      assert (a + b)[1..] == a[1..] + b;
      CostSumAppend(t, a[1..], b);
    }
  }

  lemma {:induction false} WellFormedCounts(t: Text, items: seq<Item>)
    ensures forall x :: multiset(WellFormed(t, items))[x] == if HeaderOk(t, x) then multiset(items)[x] else 0
    decreases |items|
  {
    if items != [] {
      assert items == [items[0]] + items[1..];
      WellFormedCounts(t, items[1..]);
    }
  }

  lemma HeadRemoved<T>(a: seq<T>, b: seq<T>, j: nat)
    requires a != [] && multiset(a) == multiset(b) && j < |b| && b[j] == a[0]
    ensures multiset(a[1..]) == multiset(b[..j] + b[j + 1..])
  {
    Removed(b, j);
    assert a == [a[0]] + a[1..];
    assert multiset(a) - multiset{a[0]} == multiset(a[1..]);
    assert multiset(b) - multiset{a[0]} == multiset(b[..j] + b[j + 1..]);
  }

  lemma CostSumSplit(t: Text, b: seq<Item>, j: nat)
    requires j < |b|
    ensures CostSum(t, b) == CostOf(t, b[j]) + CostSum(t, b[..j] + b[j + 1..])
  {
    CostSumAppend(t, b[..j], b[j + 1..]);
    CostSumAppend(t, b[..j], b[j..]);
    assert b == b[..j] + b[j..] && b[j..][1..] == b[j + 1..];
  }

  lemma {:induction false} CostSumPermuted(t: Text, a: seq<Item>, b: seq<Item>)
    requires multiset(a) == multiset(b)
    ensures CostSum(t, a) == CostSum(t, b)
    decreases |a|
  {
    SameMembers(a, b);
    if a != [] {
      assert a[0] in b;
      var j :| 0 <= j < |b| && b[j] == a[0];
      HeadRemoved(a, b, j);
      CostSumPermuted(t, a[1..], b[..j] + b[j + 1..]);
      CostSumSplit(t, b, j);
    }
  }

  lemma WellFormedPermuted(t: Text, a: seq<Item>, b: seq<Item>)
    requires multiset(a) == multiset(b)
    ensures multiset(WellFormed(t, a)) == multiset(WellFormed(t, b))
  {
    WellFormedCounts(t, a);
    WellFormedCounts(t, b);
  }

  lemma {:induction false} WellFormedDistinct(t: Text, items: seq<Item>)
    requires DistinctIdentities(items)
    ensures DistinctIdentities(WellFormed(t, items))
    ensures forall it <- WellFormed(t, items) :: it in items && HeaderOk(t, it)
    decreases |items|
  {
    if items != [] {
      var rest := items[1..];
      forall i, j | 0 <= i < j < |rest| ensures !SameIdentity(rest[i], rest[j]) {
        assert !SameIdentity(items[i + 1], items[j + 1]);
      }
      WellFormedDistinct(t, rest);
      var w := WellFormed(t, rest);
      forall j | 0 <= j < |w| ensures !SameIdentity(items[0], w[j]) {
        assert w[j] in w && w[j] in rest;
        var k :| 0 <= k < |rest| && rest[k] == w[j];
        assert !SameIdentity(items[0], items[k + 1]);
      }
    }
  }

  // ---- second pass ----

  function SortKeys(items: seq<Item>): seq<string>
    requires AllItems(items)
  {
    seq(|items|, i requires 0 <= i < |items| => assert items[i] in items; SortKey(items[i]))
  }

  /** Sorting distinct items lists their keys ascending, each item once. */
  lemma SortedKeysAscend(items: seq<Item>)
    requires AllItems(items) && DistinctIdentities(items)
    ensures Ascending(SortKeys(Sorted(items)), StringLess)
  {
    var order, keys := Order(items), SortKeys(Sorted(items));
    RankOrder();
    OrderedLists(Ranks(items), RankLess);
    forall j, k | 0 <= j < k < |keys| ensures StringLess(keys[j], keys[k]) {
      assert RankLess(order[j], order[k]) && order[j] in order && order[k] in order;
      KeysDiffer(items, order[j].1, order[k].1);
    }
  }

  lemma KeysDiffer(items: seq<Item>, x: nat, y: nat)
    requires AllItems(items) && DistinctIdentities(items) && x < |items| && y < |items|
    ensures items[x] in items && items[y] in items && (x < y ==> SortKey(items[x]) != SortKey(items[y]))
  {
    SortKeyIsIdentity(items[x], items[y]);
  }

  lemma SortedMembers(items: seq<Item>)
    requires AllItems(items)
    ensures forall it :: it in Sorted(items) <==> it in items
  {
    var order, sorted := Order(items), Sorted(items);
    assert forall k | 0 <= k < |order| :: order[k] in order && sorted[k] == items[order[k].1] && items[order[k].1] in items;
    forall it | it in items ensures it in sorted {
      var i :| 0 <= i < |items| && items[i] == it;
      var k := OrderCovers(items, i);
      assert sorted[k] == it;
    }
  }

  lemma SortedPermuted(a: seq<Item>, b: seq<Item>)
    requires AllItems(a) && AllItems(b) && DistinctIdentities(a) && multiset(a) == multiset(b)
    ensures Sorted(a) == Sorted(b)
  {
    SameMembers(a, b);
    DistinctPermuted(a, b);
    SortedKeysAscend(a);
    SortedKeysAscend(b);
    SortedMembers(a);
    SortedMembers(b);
    StringOrder();
    var s, r := Sorted(a), Sorted(b);
    SameKeyElements(s, r);
    AscendingUnique(SortKeys(s), SortKeys(r), StringLess);
    assert |s| == |SortKeys(s)| && |r| == |SortKeys(r)|;
    forall k | 0 <= k < |s| ensures s[k] == r[k] {
      assert s[k] in s && r[k] in r;
      assert SortKeys(s)[k] == SortKeys(r)[k];
      SortKeyIsIdentity(s[k], r[k]);
      SameIdentityIsSame(a, s[k], r[k]);
    }
  }

  lemma SameKeyElements(s: seq<Item>, r: seq<Item>)
    requires AllItems(s) && AllItems(r) && forall it :: it in s <==> it in r
    ensures Elements(SortKeys(s)) == Elements(SortKeys(r))
  {
    forall key | key in Elements(SortKeys(s)) ensures key in Elements(SortKeys(r)) { KeyMoves(s, r, key); }
    forall key | key in Elements(SortKeys(r)) ensures key in Elements(SortKeys(s)) { KeyMoves(r, s, key); }
  }

  lemma KeyMoves(s: seq<Item>, r: seq<Item>, key: string)
    requires AllItems(s) && AllItems(r) && (forall it <- s :: it in r) && key in SortKeys(s)
    ensures key in SortKeys(r)
  {
    var i :| 0 <= i < |s| && SortKeys(s)[i] == key;
    assert s[i] in s;
    var j :| 0 <= j < |r| && r[j] == s[i];
    assert SortKeys(r)[j] == key;
  }

  // ---- descriptors ----

  lemma {:induction false} DescribeKeepsIdentity(t: Text, items: seq<Item>, remaining: nat, k: nat)
    requires AllItems(items) && k < |items|
    ensures var d := Describe(t, items, remaining).descriptors[k];
            items[k] in items && d.kind == items[k].kind && d.name == items[k].name
    decreases |items|
  {
    assert items[0] in items;
    if k > 0 {
      var one := DescribeOne(t, items[0], remaining);
      DescribeKeepsIdentity(t, items[1..], one.remaining, k - 1);
    }
  }

  lemma PutBackMembers(items: seq<Item>, ds: seq<Descriptor>)
    requires AllItems(items) && |ds| == |Order(items)|
    ensures forall d :: d in InInputOrder(items, ds) <==> d in ds
  {
    var order, r := Order(items), InInputOrder(items, ds);
    forall d | d in r ensures d in ds {
      var i :| 0 <= i < |r| && r[i] == d;
      assert Listed(items, i, PositionOf(items, i));
    }
    forall d | d in ds ensures d in r {
      var k :| 0 <= k < |ds| && ds[k] == d;
      assert order[k] in order;
      var i := order[k].1;
      var p := PositionOf(items, i);
      assert Listed(items, i, p);
      if p < k { OrderDistinct(items, p, k); }
      if k < p { OrderDistinct(items, k, p); }
      assert r[i] == d;
    }
  }

  lemma {:induction false} OfKindMembers(ds: seq<Descriptor>, kind: Kind, d: Descriptor)
    ensures d in OfKind(ds, kind) <==> d in ds && d.kind == kind
  {
    if ds != [] {
      assert ds == [ds[0]] + ds[1..];
      OfKindMembers(ds[1..], kind, d);
    }
  }

  /** Descriptors that differ have different keys. */
  ghost predicate KeyedApart(ds: seq<Descriptor>) {
    forall d, e | d in ds && e in ds && DescriptorKey(d) == DescriptorKey(e) :: d == e
  }

  lemma CanonicalSetOfMembers(a: seq<Descriptor>, b: seq<Descriptor>)
    requires KeyedApart(a) && forall d :: d in a <==> d in b
    ensures CanonicalSet(a) == CanonicalSet(b)
  {
    StringOrder();
    assert KeySet(a, DescriptorKey) == KeySet(b, DescriptorKey);
    OrderedLists(KeySet(a, DescriptorKey), StringLess);
    var ks := Ordered(KeySet(a, DescriptorKey), StringLess);
    forall i | 0 <= i < |ks| ensures CanonicalSet(a)[i] == CanonicalSet(b)[i] {
      assert ks[i] in Elements(ks);
      assert FirstWith(a, ks[i]) in a && FirstWith(b, ks[i]) in a;
    }
  }

  lemma DescriptorKeyIsIdentity(t: Text, d: Descriptor, e: Descriptor)
    requires TextOk(t) && t.plain(d.name) && t.plain(e.name) && DescriptorKey(d) == DescriptorKey(e)
    ensures d.kind == e.kind && d.name == e.name
  {
    var x, y := if d.description.Some? then d.description.value else "", if e.description.Some? then e.description.value else "";
    SeparatorUnique(KindName(d.kind), KindName(e.kind), d.name + "\0" + x, e.name + "\0" + y);
    SeparatorUnique(d.name, e.name, x, y);
  }

  lemma DescribedApart(t: Text, items: seq<Item>, remaining: nat)
    requires TextOk(t) && DistinctIdentities(items) && AllItems(items) && forall it <- items :: HeaderOk(t, it)
    ensures KeyedApart(Describe(t, items, remaining).descriptors)
  {
    var ds := Describe(t, items, remaining).descriptors;
    forall d, e | d in ds && e in ds && DescriptorKey(d) == DescriptorKey(e) ensures d == e {
      var i :| 0 <= i < |ds| && ds[i] == d;
      var j :| 0 <= j < |ds| && ds[j] == e;
      DescribeKeepsIdentity(t, items, remaining, i);
      DescribeKeepsIdentity(t, items, remaining, j);
      DescriptorKeyIsIdentity(t, d, e);
      assert SameIdentity(items[i], items[j]) && SameIdentity(items[j], items[i]);
    }
  }

  /** What the first pass leaves when every identity fits. */
  function AllReserved(t: Text, items: seq<Item>): Reservation
    requires CostSum(t, items) <= BUDGET
  {
    Reservation(WellFormed(t, items), |items| - |WellFormed(t, items)|, BUDGET - CostSum(t, items), false)
  }

  /** Within the limits, the normalised catalog in closed form. */
  lemma NormalizedWithinLimits(t: Text, items: seq<Item>)
    requires |items| <= MAX_ITEMS && CostSum(t, items) <= BUDGET && AllItems(WellFormed(t, items))
    ensures NormalizeItems(t, items) == Settle(t, |items|, 0, AllReserved(t, items))
  {
    ReserveFits(t, items, BUDGET);
    assert Reserve(t, Processed(items), BUDGET) == AllReserved(t, items);
  }

  lemma SameCanonical(a: seq<Item>, b: seq<Item>, ds: seq<Descriptor>, kind: Kind)
    requires AllItems(a) && AllItems(b) && |ds| == |Order(a)| == |Order(b)| && KeyedApart(ds)
    ensures CanonicalSet(OfKind(InInputOrder(a, ds), kind)) == CanonicalSet(OfKind(InInputOrder(b, ds), kind))
  {
    var x, y := OfKind(InInputOrder(a, ds), kind), OfKind(InInputOrder(b, ds), kind);
    PutBackMembers(a, ds);
    PutBackMembers(b, ds);
    forall d ensures d in x <==> d in y {
      OfKindMembers(InInputOrder(a, ds), kind, d);
      OfKindMembers(InInputOrder(b, ds), kind, d);
    }
    forall d | d in x ensures d in ds { OfKindMembers(InInputOrder(a, ds), kind, d); }
    CanonicalSetOfMembers(x, y);
  }

  lemma FinishPermuted(t: Text, supplied: bool, received: nat, p: Reservation, q: Reservation)
    requires TextOk(t) && AllItems(p.accepted) && AllItems(q.accepted) && multiset(p.accepted) == multiset(q.accepted)
    requires DistinctIdentities(p.accepted) && q == p.(accepted := q.accepted)
    requires forall it <- p.accepted :: HeaderOk(t, it)
    ensures DigestOf(supplied, Settle(t, received, 0, p)) == DigestOf(supplied, Settle(t, received, 0, q))
  {
    var a, b := p.accepted, q.accepted;
    SameMembers(a, b);
    SortedPermuted(a, b);
    SortedDistinct(a);
    SortedMembers(a);
    DescribedApart(t, Sorted(a), p.remaining);
    var ds := Describe(t, Sorted(a), p.remaining).descriptors;
    SameCanonical(a, b, ds, Skill);
    SameCanonical(a, b, ds, McpTool);
  }

  /**
    For a catalog of distinct identities within the item limit whose identities fit the budget,
    every order of the catalog has the same digest, malformed elements included.
   */
  lemma OrderDoesNotMatter(t: Text, supplied: bool, a: seq<Item>, b: seq<Item>)
    requires TextOk(t) && multiset(a) == multiset(b) && DistinctIdentities(a)
    requires |a| <= MAX_ITEMS && CostSum(t, a) <= BUDGET
    ensures Digest(t, supplied, Some(a)) == Digest(t, supplied, Some(b))
  {
    PermutedParts(t, a, b);
    DigestWithinLimits(t, supplied, a);
    DigestWithinLimits(t, supplied, b);
    ReservedPermuted(t, supplied, a, b);
  }

  /** The digest of a catalog that fits, over what the first pass reserves. */
  ghost function ReservedDigest(t: Text, supplied: bool, items: seq<Item>): DigestContent
    requires CostSum(t, items) <= BUDGET && AllItems(WellFormed(t, items))
  {
    DigestOf(supplied, Settle(t, |items|, 0, AllReserved(t, items)))
  }

  lemma DigestWithinLimits(t: Text, supplied: bool, items: seq<Item>)
    requires |items| <= MAX_ITEMS && CostSum(t, items) <= BUDGET && AllItems(WellFormed(t, items))
    ensures Digest(t, supplied, Some(items)) == ReservedDigest(t, supplied, items)
  {
    NormalizedWithinLimits(t, items);
  }

  lemma ReservedPermuted(t: Text, supplied: bool, a: seq<Item>, b: seq<Item>)
    requires TextOk(t) && Permuted(t, a, b) && CostSum(t, a) <= BUDGET
    ensures ReservedDigest(t, supplied, a) == ReservedDigest(t, supplied, b)
  {
    FinishPermuted(t, supplied, |a|, AllReserved(t, a), AllReserved(t, b));
  }

  /** Two catalogs whose well-formed parts are rearrangements of each other. */
  ghost predicate Permuted(t: Text, a: seq<Item>, b: seq<Item>) {
    var p, q := WellFormed(t, a), WellFormed(t, b);
    && |a| == |b| && |p| == |q| && CostSum(t, a) == CostSum(t, b) && multiset(p) == multiset(q)
    && DistinctIdentities(p) && AllItems(p) && AllItems(q) && forall it <- p :: HeaderOk(t, it)
  }

  lemma PermutedParts(t: Text, a: seq<Item>, b: seq<Item>)
    requires multiset(a) == multiset(b) && DistinctIdentities(a)
    ensures Permuted(t, a, b)
  {
    SameMembers(a, b);
    CostSumPermuted(t, a, b);
    WellFormedPermuted(t, a, b);
    DistinctPermuted(a, b);
    WellFormedDistinct(t, a);
    WellFormedDistinct(t, b);
    SameMembers(WellFormed(t, a), WellFormed(t, b));
  }

  lemma SortedDistinct(items: seq<Item>)
    requires AllItems(items) && DistinctIdentities(items)
    ensures DistinctIdentities(Sorted(items))
  {
    SortedKeysAscend(items);
    StringOrder();
    var s := Sorted(items);
    forall i, j | 0 <= i < j < |s| ensures !SameIdentity(s[i], s[j]) {
      assert s[i] in s && s[j] in s;
      SortKeyIsIdentity(s[i], s[j]);
      assert StringLess(SortKeys(s)[i], SortKeys(s)[j]);
    }
  }

  // ---- what the digest covers ----

  /** The same descriptors, each once, by kind, name and description. */
  ghost predicate Canonical(ds: seq<Descriptor>, c: seq<Descriptor>) {
    && (forall d :: d in c <==> d in ds)
    && (forall i, j | 0 <= i < j < |c| :: StringLess(DescriptorKey(c[i]), DescriptorKey(c[j])))
  }

  lemma CanonicalExactly(t: Text, ds: seq<Descriptor>)
    requires TextOk(t) && forall d <- ds :: CatalogLaws.Presentable(t, d)
    ensures Canonical(ds, CanonicalSet(ds))
  {
    StringOrder();
    OrderedLists(KeySet(ds, DescriptorKey), StringLess);
    var ks, c := Ordered(KeySet(ds, DescriptorKey), StringLess), CanonicalSet(ds);
    forall i | 0 <= i < |c| ensures c[i] in ds && DescriptorKey(c[i]) == ks[i] { assert ks[i] in Elements(ks); }
    forall d <- ds ensures d in c {
      assert DescriptorKey(d) in Elements(ks);
      var i :| 0 <= i < |ks| && ks[i] == DescriptorKey(d);
      SameKeySameDescriptor(t, d, c[i]);
    }
  }

  lemma SameKeySameDescriptor(t: Text, d: Descriptor, e: Descriptor)
    requires TextOk(t) && CatalogLaws.Presentable(t, d) && CatalogLaws.Presentable(t, e) && DescriptorKey(d) == DescriptorKey(e)
    ensures d == e
  {
    DescriptorKeyIsIdentity(t, d, e);
    var head := KindName(d.kind) + "\0" + (d.name + "\0");
    var x, y := if d.description.Some? then d.description.value else "", if e.description.Some? then e.description.value else "";
    assert DescriptorKey(d) == head + x && DescriptorKey(e) == head + y;
    assert (head + x)[|head|..] == x && (head + y)[|head|..] == y;
  }

  /**
    What is hashed for a catalog: exactly its distinct skills and its distinct tools, in canonical
    order, its availability and whether the budget was exceeded; the diagnostics as they are for an
    unknown catalog, and otherwise the number of distinct descriptors.
   */
  lemma DigestExactly(t: Text, supplied: bool, items: seq<Item>)
    requires TextOk(t)
    ensures var n, d := Normalize(t, Some(items)), Digest(t, supplied, Some(items));
            && Canonical(n.skills, d.skills) && Canonical(n.tools, d.tools)
            && d.supplied == supplied && d.availability == n.availability && d.budgetExceeded == n.budgetExceeded
            && d.diagnostics ==
               if n.availability.Unknown? then n.diagnostics
               else var unique := |d.skills| + |d.tools|; Diagnostics(unique, unique, Smaller(n.diagnostics.truncated, unique), 0)
  {
    CatalogLaws.ListedArePresentable(t, items);
    var n := Normalize(t, Some(items));
    CanonicalExactly(t, n.skills);
    CanonicalExactly(t, n.tools);
  }

  function Smaller(a: nat, b: nat): (c: nat)
    ensures c <= a && c <= b && (c == a || c == b)
  {
    if a < b then a else b
  }

  /** Catalogs with the same digest have the same skills and the same tools. */
  lemma DigestDetermines(t: Text, a: seq<Item>, b: seq<Item>, supplied: bool)
    requires TextOk(t) && Digest(t, supplied, Some(a)) == Digest(t, supplied, Some(b))
    ensures var m, n := Normalize(t, Some(a)), Normalize(t, Some(b));
            forall d :: (d in m.skills <==> d in n.skills) && (d in m.tools <==> d in n.tools)
  {
    DigestExactly(t, supplied, a);
    DigestExactly(t, supplied, b);
  }
}
