/** Small shared functions on numbers and sequences. */
module Sequences {
  function Min(a: int, b: int): int {
    if a <= b then a else b
  }

  /** `slice(0, n)`, a negative count taking nothing. */
  function Take<T>(s: seq<T>, n: int): seq<T> {
    if n <= 0 then [] else if |s| <= n then s else s[..n]
  }

  /** The keys of the rows. */
  function KeySet<R(==), K>(rows: seq<R>, key: R -> K): set<K> {
    set r <- rows :: key(r)
  }

  /** The elements to keep, in order. */
  function Filter<T>(s: seq<T>, keep: T -> bool): (r: seq<T>)
    ensures |r| <= |s|
  {
    if s == [] then [] else (if keep(s[0]) then [s[0]] else []) + Filter(s[1..], keep)
  }

  ghost predicate Rising(at: seq<nat>) {
    forall a, b | 0 <= a < b < |at| :: at[a] < at[b]
  }

  predicate Points<T(==)>(s: seq<T>, keep: T -> bool, i: nat, x: T) {
    i < |s| && s[i] == x && keep(x)
  }

  /** `out` lists exactly the elements of `s` to keep, each occurrence once and in order; `at` are their indices. */
  ghost predicate Extracts<T>(s: seq<T>, keep: T -> bool, at: seq<nat>, out: seq<T>) {
    && |at| == |out| && Rising(at)
    && (forall k | 0 <= k < |at| :: Points(s, keep, at[k], out[k]))
    && (forall i: nat | i < |s| && keep(s[i]) :: i in at)
  }

  lemma ExtractsGrows<T>(front: seq<T>, x: T, keep: T -> bool, at: seq<nat>, out: seq<T>)
    requires Extracts(front, keep, at, out)
    ensures Extracts(front + [x], keep, if keep(x) then at + [|front|] else at, if keep(x) then out + [x] else out)
  {
    var s, at', out' := front + [x], if keep(x) then at + [|front|] else at, if keep(x) then out + [x] else out;
    forall k | 0 <= k < |at'| ensures Points(s, keep, at'[k], out'[k]) {
      if k < |at| { assert Points(front, keep, at[k], out[k]); }
    }
    forall a, b | 0 <= a < b < |at'| ensures at'[a] < at'[b] {
      assert Points(front, keep, at[a], out[a]);
    }
    forall i: nat | i < |s| && keep(s[i]) ensures i in at' {
      if i < |front| { assert front[i] == s[i]; }
    }
  }

  lemma {:induction false} FilterExtracts<T>(s: seq<T>, keep: T -> bool) returns (at: seq<nat>)
    ensures Extracts(s, keep, at, Filter(s, keep))
    decreases |s|
  {
    at := [];
    if s != [] {
      var last := |s| - 1;
      var front, x := s[..last], s[last];
      at := FilterExtracts(front, keep);
      assert s == front + [x];
      FilterAppend(front, [x], keep);
      assert Filter([x], keep) == if keep(x) then [x] else [];
      ExtractsGrows(front, x, keep, at, Filter(front, keep));
      if keep(x) { at := at + [last]; }
    }
  }

  lemma {:induction false} FilterAppend<T>(a: seq<T>, b: seq<T>, keep: T -> bool)
    ensures Filter(a + b, keep) == Filter(a, keep) + Filter(b, keep)
    decreases |a|
  {
    if a == [] {
      assert a + b == b;
    } else {
      assert (a + b)[0] == a[0] && (a + b)[1..] == a[1..] + b;
      FilterAppend(a[1..], b, keep);
      var first := if keep(a[0]) then [a[0]] else [];
      assert first + (Filter(a[1..], keep) + Filter(b, keep)) == first + Filter(a[1..], keep) + Filter(b, keep);
    }
  }

  lemma {:induction false} SameFilter<T>(s: seq<T>, p: T -> bool, q: T -> bool)
    requires forall x <- s :: p(x) == q(x)
    ensures Filter(s, p) == Filter(s, q)
  {
    if s != [] {
      assert s[0] in s;
      SameFilter(s[1..], p, q);
    }
  }

  lemma {:induction false} FilterMembers<T>(s: seq<T>, keep: T -> bool, x: T)
    ensures x in Filter(s, keep) <==> x in s && keep(x)
  {
    if s != [] {
      FilterMembers(s[1..], keep, x);
      assert s == [s[0]] + s[1..];
    }
  }
}
