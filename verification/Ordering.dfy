/** Strict total orders and the ascending listing of a finite set (ORDER BY, Array.sort). */
module Ordering {

  ghost predicate StrictTotal<T(!new)>(less: (T, T) -> bool) {
    && (forall x :: !less(x, x))
    && (forall x, y, z :: less(x, y) && less(y, z) ==> less(x, z))
    && (forall x, y :: x == y || less(x, y) || less(y, x))
  }

  ghost predicate Ascending<T>(s: seq<T>, less: (T, T) -> bool) {
    forall i, j | 0 <= i < j < |s| :: less(s[i], s[j])
  }

  function Elements<T>(s: seq<T>): set<T> {
    set x | x in s
  }

  predicate IsLeast<T(==)>(x: T, s: set<T>, less: (T, T) -> bool) {
    x in s && forall y <- s :: y == x || less(x, y)
  }

  lemma {:induction false} LeastExists<T(!new)>(s: set<T>, less: (T, T) -> bool)
    requires StrictTotal(less) && s != {}
    ensures exists x :: IsLeast(x, s, less)
  {
    var y :| y in s;
    if s == {y} {
      assert IsLeast(y, s, less);
    } else {
      LeastExists(s - {y}, less);
      var z :| IsLeast(z, s - {y}, less);
      var x := if less(y, z) then y else z;
      assert forall w <- s :: w == y || w in s - {y};
      assert IsLeast(x, s, less);
    }
  }

  function Least<T(==, !new)>(s: set<T>, less: (T, T) -> bool): (x: T)
    requires StrictTotal(less) && s != {}
    ensures IsLeast(x, s, less)
  {
    LeastExists(s, less);
    var x :| x in s && IsLeast(x, s, less);
    x
  }

  /** The elements of `s` in ascending order. */
  function Ordered<T(==, !new)>(s: set<T>, less: (T, T) -> bool): seq<T>
    requires StrictTotal(less)
  {
    if s == {} then [] else
      var x := Least(s, less);
      [x] + Ordered(s - {x}, less)
  }

  lemma {:induction false} OrderedLists<T(!new)>(s: set<T>, less: (T, T) -> bool)
    requires StrictTotal(less)
    ensures Ascending(Ordered(s, less), less)
    ensures Elements(Ordered(s, less)) == s
  {
    if s != {} {
      var x := Least(s, less);
      OrderedLists(s - {x}, less);
      var rest := Ordered(s - {x}, less);
      assert forall y :: y in [x] + rest <==> y == x || y in rest;
      assert forall y :: y in rest <==> y in Elements(rest);
    }
  }

  /** A set has one ascending listing. */
  lemma {:induction false} AscendingUnique<T(!new)>(a: seq<T>, b: seq<T>, less: (T, T) -> bool)
    requires StrictTotal(less) && Ascending(a, less) && Ascending(b, less)
    requires Elements(a) == Elements(b)
    ensures a == b
    decreases |a|
  {
    assert b != [] ==> b[0] in Elements(b);
    assert forall x :: x in a <==> x in Elements(a);
    assert forall x :: x in b <==> x in Elements(b);
    if a != [] {
      assert a[0] in Elements(b) && a[0] in Elements(a);
      assert b[0] in Elements(a) by { assert b[0] in Elements(b); }
      assert a[0] == b[0];
      forall x
        ensures x in Elements(a[1..]) <==> x in Elements(b[1..])
      {
        assert x in Elements(a[1..]) ==> x in a;
        assert x in Elements(b[1..]) ==> x in b;
        assert x in Elements(a) <==> x in Elements(b);
      }
      AscendingUnique(a[1..], b[1..], less);
    }
  }

  /** What lies strictly after the element at `i - 1` is the rest of the listing. */
  lemma RestOfListing<T(!new)>(s: set<T>, less: (T, T) -> bool, i: nat, rest: set<T>)
    requires StrictTotal(less) && 0 < i <= |Ordered(s, less)|
    requires forall k :: k in rest <==> k in s && less(Ordered(s, less)[i - 1], k)
    ensures Ordered(rest, less) == Ordered(s, less)[i..]
  {
    var all := Ordered(s, less);
    OrderedLists(s, less);
    OrderedLists(rest, less);
    RestElements(s, less, all, i, rest);
    AscendingUnique(Ordered(rest, less), all[i..], less);
  }

  lemma RestElements<T(!new)>(s: set<T>, less: (T, T) -> bool, all: seq<T>, i: nat, rest: set<T>)
    requires StrictTotal(less) && Ascending(all, less) && Elements(all) == s && 0 < i <= |all|
    requires forall k :: k in rest <==> k in s && less(all[i - 1], k)
    ensures Elements(all[i..]) == rest
  {
    assert forall k :: k in all <==> k in Elements(all);
    forall k | k in rest
      ensures k in Elements(all[i..])
    {
      assert k in Elements(all);
      var j :| 0 <= j < |all| && all[j] == k;
      assert j >= i;
      assert all[i..][j - i] == k;
    }
    forall k | k in Elements(all[i..])
      ensures k in rest
    {
      var j :| 0 <= j < |all[i..]| && all[i..][j] == k;
      assert all[i + j] == k && less(all[i - 1], all[i + j]);
      assert k in Elements(all);
    }
  }

  /** A new element is inserted into the listing; the rest keeps its order. */
  lemma ListingGrows<T(!new)>(s: set<T>, x: T, less: (T, T) -> bool) returns (i: nat)
    requires StrictTotal(less) && x !in s
    ensures i <= |Ordered(s, less)|
    ensures Ordered(s + {x}, less) == Ordered(s, less)[..i] + [x] + Ordered(s, less)[i..]
  {
    OrderedLists(s + {x}, less);
    OrderedLists(s, less);
    i := AscendingGrows(s, x, less, Ordered(s, less), Ordered(s + {x}, less));
  }

  lemma AscendingGrows<T(!new)>(s: set<T>, x: T, less: (T, T) -> bool, before: seq<T>, all: seq<T>) returns (i: nat)
    requires StrictTotal(less) && x !in s && Ascending(all, less) && Ascending(before, less)
    requires Elements(all) == s + {x} && Elements(before) == s
    ensures i <= |before| && all == before[..i] + [x] + before[i..]
  {
    assert x in Elements(all);
    i :| 0 <= i < |all| && all[i] == x;
    GrownElements(s, x, less, all, i);
    AscendingUnique(before, all[..i] + all[i + 1..], less);
  }

  lemma GrownElements<T(!new)>(s: set<T>, x: T, less: (T, T) -> bool, all: seq<T>, i: nat)
    requires StrictTotal(less) && Ascending(all, less) && Elements(all) == s + {x} && x !in s && i < |all| && all[i] == x
    ensures Elements(all[..i] + all[i + 1..]) == s && Ascending(all[..i] + all[i + 1..], less)
  {
    var rest := all[..i] + all[i + 1..];
    assert all == all[..i] + [x] + all[i + 1..];
    forall k
      ensures k in Elements(rest) <==> k in s
    {
      assert k in Elements(all) <==> k in all;
      assert k in all <==> k in rest || k == x;
    }
  }

  // ---- strings and pairs ----

  predicate StringLess(a: string, b: string) {
    b != [] && (a == [] || a[0] < b[0] || (a[0] == b[0] && StringLess(a[1..], b[1..])))
  }

  lemma {:induction false} StringConnected(a: string, b: string)
    ensures a == b || StringLess(a, b) || StringLess(b, a)
  {
    if a != [] && b != [] && a[0] == b[0] {
      StringConnected(a[1..], b[1..]);
      assert a == [a[0]] + a[1..] && b == [b[0]] + b[1..];
    }
  }

  lemma {:induction false} StringTransitive(a: string, b: string, c: string)
    requires StringLess(a, b) && StringLess(b, c)
    ensures StringLess(a, c)
  {
    if a != [] && a[0] == b[0] && b[0] == c[0] {
      StringTransitive(a[1..], b[1..], c[1..]);
    }
  }

  lemma {:induction false} StringIrreflexive(a: string)
    ensures !StringLess(a, a)
  {
    if a != [] { StringIrreflexive(a[1..]); }
  }

  lemma StringOrder()
    ensures StrictTotal(StringLess)
  {
    forall x: string, y: string ensures x == y || StringLess(x, y) || StringLess(y, x) { StringConnected(x, y); }
    forall x: string, y: string, z: string | StringLess(x, y) && StringLess(y, z) ensures StringLess(x, z) {
      StringTransitive(x, y, z);
    }
    forall x: string ensures !StringLess(x, x) { StringIrreflexive(x); }
  }

  /** A separator that the first parts do not contain splits a string one way. */
  lemma {:induction false} SeparatorUnique(a: string, b: string, x: string, y: string)
    requires '\0' !in a && '\0' !in b && a + "\0" + x == b + "\0" + y
    ensures a == b && x == y
    decreases |a|
  {
    var s, t := a + "\0" + x, b + "\0" + y;
    if a == [] {
      assert s[0] == '\0' && t[0] == '\0';
      assert b == [];
      assert s[1..] == x && t[1..] == y;
    } else {
      assert s[0] == a[0] && b != [] && t[0] == b[0];
      assert s[1..] == a[1..] + "\0" + x && t[1..] == b[1..] + "\0" + y;
      SeparatorUnique(a[1..], b[1..], x, y);
      assert a == [a[0]] + a[1..] && b == [b[0]] + b[1..];
    }
  }

  /** Lexicographic order of pairs. */
  predicate PairLess(a: (string, string), b: (string, string)) {
    StringLess(a.0, b.0) || (a.0 == b.0 && StringLess(a.1, b.1))
  }

  lemma PairOrder()
    ensures StrictTotal(PairLess)
  {
    StringOrder();
  }
}
