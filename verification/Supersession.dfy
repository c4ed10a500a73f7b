/**
  The memoised walk that rejects unknown replacements and cycles
  (src/commands/import.ts:538-558, src/commands/export.ts:92-112).
 */
module Supersession {
  import opened Options

  type Id = string
  type Replacements = map<Id, Option<Id>>

  datatype Mark = Visiting | Complete

  datatype Verdict = Accepted | UnknownReplacement(id: Id) | Cycle

  /** The `Map` built from the entries; a later entry with the same id wins. */
  function ReplacementsOf(entries: seq<(Id, Option<Id>)>): Replacements {
    if entries == [] then map[]
    else ReplacementsOf(entries[..|entries| - 1])[entries[|entries| - 1].0 := entries[|entries| - 1].1]
  }

  /** From `id`, at most `n` replacements lead to an entry with none, all in the archive. */
  predicate EndsWithin(m: Replacements, id: Id, n: nat)
    decreases n
  {
    id in m && (m[id].None? || (n > 0 && EndsWithin(m, m[id].value, n - 1)))
  }

  ghost predicate Ends(m: Replacements, id: Id) {
    exists n :: EndsWithin(m, id, n)
  }

  /** Every replacement is in the archive and every chain ends. */
  ghost predicate WellFounded(m: Replacements) {
    forall id <- m :: Ends(m, id)
  }

  /** `k` replacements lead from `a` to `b`. */
  predicate Reaches(m: Replacements, a: Id, k: nat, b: Id)
    decreases k
  {
    if k == 0 then a == b else a in m && m[a].Some? && Reaches(m, m[a].value, k - 1, b)
  }

  lemma {:induction false} EndsForward(m: Replacements, a: Id, k: nat, b: Id, n: nat)
    requires Reaches(m, a, k, b) && EndsWithin(m, a, n)
    ensures k <= n && EndsWithin(m, b, n - k)
    decreases k
  {
    if k > 0 {
      EndsForward(m, m[a].value, k - 1, b, n - 1);
    }
  }

  lemma {:induction false} EndsBackward(m: Replacements, a: Id, k: nat, b: Id, n: nat)
    requires Reaches(m, a, k, b) && EndsWithin(m, b, n)
    ensures EndsWithin(m, a, n + k)
    decreases k
  {
    if k > 0 {
      EndsBackward(m, m[a].value, k - 1, b, n);
    }
  }

  lemma {:induction false} CycleNeverEnds(m: Replacements, a: Id, k: nat, n: nat)
    requires k > 0 && Reaches(m, a, k, a)
    ensures !EndsWithin(m, a, n)
    decreases n
  {
    if EndsWithin(m, a, n) {
      EndsForward(m, a, k, a, n);
      CycleNeverEnds(m, a, k, n - k);
    }
  }

  /** Consecutive elements of the path, and finally `next`, are linked by replacements. */
  predicate Chain(m: Replacements, path: seq<Id>, next: Option<Id>) {
    && (forall i | 0 <= i < |path| :: path[i] in m)
    && (forall i | 0 <= i < |path| - 1 :: m[path[i]] == Some(path[i + 1]))
    && (path != [] ==> m[path[|path| - 1]] == next)
  }

  lemma {:induction false} ChainReaches(m: Replacements, path: seq<Id>, next: Id, i: nat)
    requires Chain(m, path, Some(next)) && i < |path|
    ensures Reaches(m, path[i], |path| - i, next)
    decreases |path| - i
  {
    if i + 1 < |path| {
      ChainReaches(m, path, next, i + 1);
    } else {
      assert Reaches(m, next, 0, next);
    }
  }

  lemma {:induction false} ChainToNullEnds(m: Replacements, path: seq<Id>, i: nat)
    requires Chain(m, path, None) && i < |path|
    ensures EndsWithin(m, path[i], |path| - i)
    decreases |path| - i
  {
    if i + 1 < |path| {
      ChainToNullEnds(m, path, i + 1);
    }
  }

  /** A chain that ends, or meets an entry already known to end, ends throughout. */
  lemma PathEnds(m: Replacements, path: seq<Id>, next: Option<Id>)
    requires Chain(m, path, next) && (next.Some? ==> Ends(m, next.value))
    ensures forall i | 0 <= i < |path| :: Ends(m, path[i])
  {
    forall i: nat | i < |path|
      ensures Ends(m, path[i])
    {
      if next.None? {
        ChainToNullEnds(m, path, i);
      } else {
        var n :| EndsWithin(m, next.value, n);
        ChainReaches(m, path, next.value, i);
        EndsBackward(m, path[i], |path| - i, next.value, n);
      }
    }
  }

  /** A chain leaving the archive, or running back into itself, does not end. */
  lemma PathDoesNotEnd(m: Replacements, path: seq<Id>, next: Id)
    requires path != [] && Chain(m, path, Some(next)) && (next !in m || next in path)
    ensures !Ends(m, path[0])
  {
    forall n: nat
      ensures !EndsWithin(m, path[0], n)
    {
      if EndsWithin(m, path[0], n) {
        ChainReaches(m, path, next, 0);
        EndsForward(m, path[0], |path|, next, n);
        if next in path {
          var j: nat :| j < |path| && path[j] == next;
          ChainReaches(m, path, next, j);
          CycleNeverEnds(m, next, |path| - j, n - |path|);
        }
      }
    }
  }

  predicate Marked(state: map<Id, Mark>, id: Id, mark: Mark) {
    id in state && state[id] == mark
  }

  /** All finished entries are in the archive and end. */
  ghost predicate CompleteEnds(m: Replacements, state: map<Id, Mark>) {
    forall id <- state :: id in m && (state[id].Complete? ==> Ends(m, id))
  }

  lemma {:induction false} EntryIsKey(entries: seq<(Id, Option<Id>)>, j: nat)
    requires j < |entries|
    ensures entries[j].0 in ReplacementsOf(entries)
  {
    var last := |entries| - 1;
    if j < last {
      EntryIsKey(entries[..last], j);
    }
  }

  lemma {:induction false} KeyIsEntry(entries: seq<(Id, Option<Id>)>, id: Id) returns (j: nat)
    requires id in ReplacementsOf(entries)
    ensures j < |entries| && entries[j].0 == id
  {
    var last := |entries| - 1;
    if entries[last].0 == id {
      j := last;
    } else {
      j := KeyIsEntry(entries[..last], id);
    }
  }

  lemma SubsetCardinality(a: set<Id>, b: set<Id>)
    requires a <= b
    ensures |a| <= |b|
  {
    assert |b - a| == |b| - |a|;
  }

  /** The loop that turns the visited path into finished entries. */
  method MarkComplete(state0: map<Id, Mark>, path: seq<Id>) returns (state: map<Id, Mark>)
    requires forall id <- path :: id in state0
    ensures state.Keys == state0.Keys
    ensures forall id <- state :: state[id] == if id in path then Complete else state0[id]
  {
    state := state0;
    var k := 0;
    while k < |path|
      invariant 0 <= k <= |path|
      invariant state.Keys == state0.Keys
      invariant forall id <- state :: state[id] == if id in path[..k] then Complete else state0[id]
    {
      assert path[k] in state0 by { assert path[k] in path; }
      state := state[path[k] := Complete];
      assert path[..k + 1] == path[..k] + [path[k]];
      k := k + 1;
    }
    assert path[..k] == path;
  }

  /** The state of the walk: the visited path is marked, everything else was finished before. */
  ghost predicate WalkInv(m: Replacements, start: Id, state0: map<Id, Mark>, state: map<Id, Mark>,
                          path: seq<Id>, current: Option<Id>) {
    && (path == [] ==> current == Some(start) && state == state0)
    && (path != [] ==> path[0] == start)
    && Chain(m, path, current)
    && (forall id :: id in path <==> Marked(state, id, Visiting))
    && (forall id :: id in state0 <==> Marked(state, id, Complete))
    && CompleteEnds(m, state) && state0.Keys <= state.Keys
  }

  lemma WalkStep(m: Replacements, start: Id, state0: map<Id, Mark>, state: map<Id, Mark>, path: seq<Id>, id: Id)
    requires WalkInv(m, start, state0, state, path, Some(id)) && id in m && id !in state
    ensures WalkInv(m, start, state0, state[id := Visiting], path + [id], m[id])
    ensures (state[id := Visiting]).Keys == state.Keys + {id}
  {
    var next := state[id := Visiting];
    forall x ensures x in path + [id] <==> Marked(next, x, Visiting) {
      assert x in path <==> Marked(state, x, Visiting);
    }
    forall x ensures x in state0 <==> Marked(next, x, Complete) {
      assert x in state0 <==> Marked(state, x, Complete);
    }
  }

  /** The inner walk from one entry. */
  method Walk(m: Replacements, start: Id, state0: map<Id, Mark>)
    returns (verdict: Verdict, state: map<Id, Mark>, visits: nat)
    requires start in m && CompleteEnds(m, state0) && (forall id <- state0 :: state0[id].Complete?)
    requires start !in state0
    ensures visits == |state.Keys| - |state0.Keys|
    ensures CompleteEnds(m, state) && state0.Keys <= state.Keys
    ensures verdict.Accepted? ==> start in state && forall id <- state :: state[id].Complete?
    ensures !verdict.Accepted? ==> !Ends(m, start)
    ensures verdict.UnknownReplacement? ==> verdict.id !in m
  {
    state := state0;
    visits := 0;
    var path: seq<Id> := [];
    var current: Option<Id> := Some(start);
    while current.Some?
      invariant WalkInv(m, start, state0, state, path, current)
      invariant visits == |state.Keys| - |state0.Keys|
      decreases m.Keys - state.Keys, current.Some?
    {
      var id := current.value;
      if id !in m {
        PathDoesNotEnd(m, path, id);
        return UnknownReplacement(id), state, visits;
      }
      if Marked(state, id, Visiting) {
        PathDoesNotEnd(m, path, id);
        return Cycle, state, visits;
      }
      if Marked(state, id, Complete) {
        break;
      }
      WalkStep(m, start, state0, state, path, id);
      state := state[id := Visiting];
      visits := visits + 1;
      path := path + [id];
      current := m[id];
    }
    PathEnds(m, path, current);
    state := MarkComplete(state, path);
    return Accepted, state, visits;
  }

  /**
    `validateSupersessionGraph` and `validateExportSupersession`: the walk accepts exactly
    the archives in which every replacement is present and every chain ends, and marks
    each entry as being visited at most once over the whole loop.
   */
  method ValidateSupersession(entries: seq<(Id, Option<Id>)>) returns (verdict: Verdict, visits: nat)
    ensures verdict.Accepted? <==> WellFounded(ReplacementsOf(entries))
    ensures visits <= |ReplacementsOf(entries)|
    ensures verdict.Accepted? ==> visits == |ReplacementsOf(entries)|
    ensures verdict.UnknownReplacement? ==> verdict.id !in ReplacementsOf(entries)
  {
    var m := ReplacementsOf(entries);
    var state: map<Id, Mark> := map[];
    visits := 0;
    var i := 0;
    while i < |entries|
      invariant 0 <= i <= |entries|
      invariant CompleteEnds(m, state) && forall id <- state :: state[id].Complete?
      invariant forall j | 0 <= j < i :: entries[j].0 in state
      invariant visits == |state.Keys|
    {
      EntryIsKey(entries, i);
      if !Marked(state, entries[i].0, Complete) {
        var n;
        verdict, state, n := Walk(m, entries[i].0, state);
        visits := visits + n;
        SubsetCardinality(state.Keys, m.Keys);
        if !verdict.Accepted? {
          return;
        }
      }
      i := i + 1;
    }
    verdict := Accepted;
    forall id <- m
      ensures id in state
    {
      var j := KeyIsEntry(entries, id);
    }
    assert state.Keys == m.Keys;
  }
}
