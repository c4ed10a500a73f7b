/**
  The budgeted ledger of Skill discovery attempts: reserve on claim, consume on
  completion or failure, replay afterwards (src/akinator/skill-discovery-attempt.ts).
  The table is the sequence of its rows; every operation is one transaction.
 */
module DiscoveryLedger {
  import opened Options
  import opened Sequences

  const MAX_QUERIES: nat := 3      // ENNO_MAX_TOTAL_SKILL_QUERIES
  const MAX_SELECTIONS: nat := 2   // ENNO_MAX_EXTERNAL_SKILLS
  const MAX_SUMMARY_CHARS: nat := 262144

  datatype Phase = Intake | Zenki
  datatype Mode = Off | Official | Community
  datatype Identity = Identity(run: string, phase: Phase, digest: string, mode: Mode)
  datatype Summary = Summary(mode: Mode, attempted: bool, queries: seq<string>, selected: seq<string>)
  datatype Failure =
    | Kiokuko(code: string)
    | Provider(code: string, retryAfter: Option<nat>)
    | Source(code: string, retryAfter: Option<nat>)

  datatype State = Started | Completed(summary: Summary) | Failed(failure: Failure)
  datatype Row = Row(run: string, phase: Phase, digest: string,
                     reservedQueries: int, reservedSelections: int,
                     consumedQueries: int, consumedSelections: int,
                     state: State, startedAt: nat, finishedAt: Option<nat>)

  type Table = seq<Row>

  datatype Answer =
    | Execute(queries: int, selections: int)
    | Replay(summary: Summary)
    | StoredFailure(failure: Failure)
    | Conflict | Invalid | IntegrityError

  predicate IsHash(s: string) {
    |s| == 64 && forall c <- s :: '0' <= c <= '9' || 'a' <= c <= 'f'
  }

  predicate Bounded(value: int, maximum: int) {
    0 <= value <= maximum
  }

  predicate Distinct(s: seq<string>) {
    forall i, j | 0 <= i < j < |s| :: s[i] != s[j]
  }

  /** `validateSummary`, as far as it bears on the budget. */
  predicate ValidSummary(s: Summary, mode: Mode) {
    && s.mode == mode
    && |s.queries| <= 64 && Distinct(s.queries)
    && |s.selected| <= 2 && Distinct(s.selected)
    && s.attempted == (s.queries != [])
  }

  /** `validateAttemptRow` */
  predicate ValidRow(r: Row) {
    && IsHash(r.digest)
    && Bounded(r.reservedQueries, MAX_QUERIES)
    && Bounded(r.reservedSelections, MAX_SELECTIONS)
    && Bounded(r.consumedQueries, r.reservedQueries)
    && Bounded(r.consumedSelections, r.reservedSelections)
    && if r.state.Started?
       then r.consumedQueries == 0 && r.consumedSelections == 0 && r.finishedAt.None?
       else r.finishedAt.Some? && r.startedAt <= r.finishedAt.value
  }

  predicate Matches(r: Row, id: Identity) {
    r.run == id.run && r.phase == id.phase && r.digest == id.digest
  }

  /** SELECT by primary key: the index of the row, or the length of the table. */
  function Find(t: Table, id: Identity): (i: nat)
    ensures i <= |t|
    ensures i < |t| ==> Matches(t[i], id)
    ensures forall j | 0 <= j < i :: !Matches(t[j], id)
  {
    if t == [] then 0 else if Matches(t[0], id) then 0 else 1 + Find(t[1..], id)
  }

  predicate ActiveIn(r: Row, run: string, phase: Phase) {
    r.run == run && r.phase == phase && r.state.Started?
  }

  function ChargedQueries(r: Row, run: string): int {
    if r.run != run then 0 else if r.state.Started? then r.reservedQueries else r.consumedQueries
  }

  function ChargedSelections(r: Row, run: string): int {
    if r.run != run then 0 else if r.state.Started? then r.reservedSelections else r.consumedSelections
  }

  function UsedQueries(t: Table, run: string): int {
    if t == [] then 0 else UsedQueries(t[..|t| - 1], run) + ChargedQueries(t[|t| - 1], run)
  }

  function UsedSelections(t: Table, run: string): int {
    if t == [] then 0 else UsedSelections(t[..|t| - 1], run) + ChargedSelections(t[|t| - 1], run)
  }

  predicate ValidClaim(id: Identity, queries: int, selections: int) {
    && 0 < |id.run| <= 256 && IsHash(id.digest)
    && Bounded(queries, MAX_QUERIES) && Bounded(selections, MAX_SELECTIONS)
  }

  /** What the stored attempt answers a repeated claim. */
  function Resolve(r: Row, id: Identity): Answer {
    match r.state
    case Started => Conflict
    case Completed(s) => if ValidSummary(s, id.mode) then Replay(s) else IntegrityError
    case Failed(f) => StoredFailure(f)
  }

  /** The budget left, or nothing at all when either half is exhausted. */
  function Granted(t: Table, id: Identity, queries: int, selections: int): (int, int) {
    var q := Min(queries, MAX_QUERIES - UsedQueries(t, id.run));
    var s := Min(selections, MAX_SELECTIONS - UsedSelections(t, id.run));
    if q == 0 || s == 0 then (0, 0) else (q, s)
  }

  function NewRow(t: Table, id: Identity, queries: int, selections: int, now: nat): Row {
    var (q, s) := Granted(t, id, queries, selections);
    Row(id.run, id.phase, id.digest, q, s, 0, 0, Started, now, None)
  }

  // ---- the invariant ----

  predicate OneActive(t: Table) {
    forall i, j | 0 <= i < j < |t| ::
      !(t[i].state.Started? && t[j].state.Started? && t[i].run == t[j].run && t[i].phase == t[j].phase)
  }

  predicate KeysDistinct(t: Table) {
    forall i, j | 0 <= i < j < |t| ::
      !(t[i].run == t[j].run && t[i].phase == t[j].phase && t[i].digest == t[j].digest)
  }

  ghost predicate WithinBudget(t: Table) {
    forall run :: UsedQueries(t, run) <= MAX_QUERIES && UsedSelections(t, run) <= MAX_SELECTIONS
  }

  /** A stored summary satisfied the validator under the mode it was completed with. */
  predicate SummariesValid(t: Table) {
    forall r <- t | r.state.Completed? :: ValidSummary(r.state.summary, r.state.summary.mode)
  }

  ghost predicate Inv(t: Table) {
    && (forall r <- t :: ValidRow(r))
    && KeysDistinct(t) && OneActive(t) && WithinBudget(t) && SummariesValid(t)
  }

  lemma {:induction false} UsedAppend(t: Table, r: Row, run: string)
    ensures UsedQueries(t + [r], run) == UsedQueries(t, run) + ChargedQueries(r, run)
    ensures UsedSelections(t + [r], run) == UsedSelections(t, run) + ChargedSelections(r, run)
  {
    assert (t + [r])[..|t|] == t;
  }

  lemma {:induction false} UsedUpdate(t: Table, i: nat, r: Row, run: string)
    requires i < |t|
    ensures UsedQueries(t[i := r], run)
            == UsedQueries(t, run) - ChargedQueries(t[i], run) + ChargedQueries(r, run)
    ensures UsedSelections(t[i := r], run)
            == UsedSelections(t, run) - ChargedSelections(t[i], run) + ChargedSelections(r, run)
  {
    var last := |t| - 1;
    if i < last {
      UsedUpdate(t[..last], i, r, run);
      assert t[i := r][..last] == t[..last][i := r];
    } else {
      assert t[i := r][..last] == t[..last];
    }
  }

  lemma {:induction false} UsedIsNonNegative(t: Table, run: string)
    requires forall r <- t :: ValidRow(r)
    ensures UsedQueries(t, run) >= 0 && UsedSelections(t, run) >= 0
  {
    if t != [] {
      UsedIsNonNegative(t[..|t| - 1], run);
      assert t[|t| - 1] in t;
    }
  }

  // ---- the operations on table values ----

  datatype Op =
    | Claim(id: Identity, queries: int, selections: int, at: nat)
    | Complete(id: Identity, summary: Summary, at: nat)
    | Fail(id: Identity, failure: Failure, at: nat)

  function Finish(r: Row, queries: int, selections: int, state: State, now: nat): Row {
    r.(consumedQueries := queries, consumedSelections := selections, state := state, finishedAt := Some(now))
  }

  function ClaimSpec(t: Table, id: Identity, queries: int, selections: int, now: nat): (Answer, Table) {
    var i := Find(t, id);
    if !ValidClaim(id, queries, selections) then (Invalid, t)
    else if i < |t| then (Resolve(t[i], id), t)
    else if exists r <- t :: ActiveIn(r, id.run, id.phase) then (Conflict, t)
    else
      var r := NewRow(t, id, queries, selections, now);
      (Execute(r.reservedQueries, r.reservedSelections), t + [r])
  }

  function CompleteSpec(t: Table, id: Identity, s: Summary, now: nat): (Answer, Table) {
    var i := Find(t, id);
    if !ValidSummary(s, id.mode) || i == |t| || !t[i].state.Started?
       || |s.queries| > t[i].reservedQueries || |s.selected| > t[i].reservedSelections
       || now < t[i].startedAt
    then (IntegrityError, t)
    else (Replay(s), t[i := Finish(t[i], |s.queries|, |s.selected|, Completed(s), now)])
  }

  function FailSpec(t: Table, id: Identity, f: Failure, now: nat): (Answer, Table) {
    var i := Find(t, id);
    if i == |t| || !t[i].state.Started? || now < t[i].startedAt then (IntegrityError, t)
    else (StoredFailure(f), t[i := Finish(t[i], t[i].reservedQueries, t[i].reservedSelections, Failed(f), now)])
  }

  function Apply(t: Table, op: Op): (Answer, Table) {
    match op
    case Claim(id, q, s, now) => ClaimSpec(t, id, q, s, now)
    case Complete(id, s, now) => CompleteSpec(t, id, s, now)
    case Fail(id, f, now) => FailSpec(t, id, f, now)
  }

  function RunAll(t: Table, ops: seq<Op>): Table
    decreases |ops|
  {
    if ops == [] then t else RunAll(Apply(t, ops[0]).1, ops[1..])
  }

  lemma AppendKeepsInv(t: Table, r: Row)
    requires Inv(t) && ValidRow(r) && r.state.Started?
    requires forall x <- t :: !ActiveIn(x, r.run, r.phase)
    requires forall x <- t :: !(x.run == r.run && x.phase == r.phase && x.digest == r.digest)
    requires UsedQueries(t, r.run) + r.reservedQueries <= MAX_QUERIES
    requires UsedSelections(t, r.run) + r.reservedSelections <= MAX_SELECTIONS
    ensures Inv(t + [r])
  {
    var t' := t + [r];
    forall run
      ensures UsedQueries(t', run) <= MAX_QUERIES && UsedSelections(t', run) <= MAX_SELECTIONS
    {
      UsedAppend(t, r, run);
    }
    assert forall i | 0 <= i < |t| :: t'[i] == t[i] && t[i] in t;
    forall i, j | 0 <= i < j < |t'|
      ensures !(t'[i].run == t'[j].run && t'[i].phase == t'[j].phase && t'[i].digest == t'[j].digest)
      ensures !(t'[i].state.Started? && t'[j].state.Started? && t'[i].run == t'[j].run && t'[i].phase == t'[j].phase)
    {
      assert t'[i] == t[i] && t[i] in t;
    }
  }

  lemma ClaimKeepsInv(t: Table, id: Identity, queries: int, selections: int, now: nat)
    requires Inv(t)
    ensures Inv(ClaimSpec(t, id, queries, selections, now).1)
  {
    if ClaimSpec(t, id, queries, selections, now).1 != t {
      UsedIsNonNegative(t, id.run);
      assert UsedQueries(t, id.run) <= MAX_QUERIES && UsedSelections(t, id.run) <= MAX_SELECTIONS;
      forall x <- t
        ensures !Matches(x, id)
      {
        var i :| 0 <= i < |t| && t[i] == x;
      }
      AppendKeepsInv(t, NewRow(t, id, queries, selections, now));
    }
  }

  lemma FinishKeepsInv(t: Table, i: nat, r: Row)
    requires Inv(t) && i < |t| && t[i].state.Started? && !r.state.Started?
    requires ValidRow(r) && (r.state.Completed? ==> ValidSummary(r.state.summary, r.state.summary.mode))
    requires r.run == t[i].run && r.phase == t[i].phase && r.digest == t[i].digest
    requires r.reservedQueries == t[i].reservedQueries && r.reservedSelections == t[i].reservedSelections
    ensures Inv(t[i := r])
  {
    var t' := t[i := r];
    forall run
      ensures UsedQueries(t', run) <= MAX_QUERIES && UsedSelections(t', run) <= MAX_SELECTIONS
    {
      UsedUpdate(t, i, r, run);
    }
    forall x <- t'
      ensures x == r || x in t
    {
      var j :| 0 <= j < |t'| && t'[j] == x;
      assert j == i || x == t[j];
    }
  }

  lemma ApplyKeepsInv(t: Table, op: Op)
    requires Inv(t)
    ensures Inv(Apply(t, op).1)
  {
    match op
    case Claim(id, q, s, now) => ClaimKeepsInv(t, id, q, s, now);
    case Complete(id, s, now) =>
      var t' := CompleteSpec(t, id, s, now).1;
      if t' != t {
        var i := Find(t, id);
        assert t[i] in t;
        FinishKeepsInv(t, i, Finish(t[i], |s.queries|, |s.selected|, Completed(s), now));
      }
    case Fail(id, f, now) =>
      var t' := FailSpec(t, id, f, now).1;
      if t' != t {
        var i := Find(t, id);
        assert t[i] in t;
        FinishKeepsInv(t, i, Finish(t[i], t[i].reservedQueries, t[i].reservedSelections, Failed(f), now));
      }
  }

  /**
    Budget safety over all runs: after any sequence of claims, completions and failures the
    reserved plus consumed queries and selections of every run stay within the maxima, no
    phase of a run has two started attempts, and every stored row is valid.
   */
  lemma {:induction false} BudgetSafe(t: Table, ops: seq<Op>)
    requires Inv(t)
    ensures Inv(RunAll(t, ops))
    decreases |ops|
  {
    if ops != [] {
      ApplyKeepsInv(t, ops[0]);
      BudgetSafe(Apply(t, ops[0]).1, ops[1..]);
    }
  }

  /** The row an identity names, once finished, is what every later claim answers from. */
  ghost predicate FinishedAs(t: Table, id: Identity, r: Row) {
    Find(t, id) < |t| && t[Find(t, id)] == r && !r.state.Started?
  }

  lemma FindUnique(t: Table, id: Identity, i: nat)
    requires KeysDistinct(t) && i < |t| && Matches(t[i], id)
    ensures Find(t, id) == i
  {
  }

  lemma StepKeepsFinished(t: Table, op: Op, id: Identity, r: Row)
    requires Inv(t) && FinishedAs(t, id, r)
    ensures FinishedAs(Apply(t, op).1, id, r)
  {
    ApplyKeepsInv(t, op);
    var t' := Apply(t, op).1;
    var i := Find(t, id);
    assert i < |t'| && t'[i] == r;
    FindUnique(t', id, i);
  }

  /**
    A finished attempt replays its stored result forever, at no cost: after any further
    operations a valid claim with the same identity and mode answers that result and
    leaves the table as it is.
   */
  lemma {:induction false} FinishedForever(t: Table, ops: seq<Op>, id: Identity, r: Row,
                                           queries: int, selections: int, now: nat)
    requires Inv(t) && FinishedAs(t, id, r) && ValidClaim(id, queries, selections)
    requires r.state.Completed? ==> r.state.summary.mode == id.mode
    ensures var later := RunAll(t, ops);
            ClaimSpec(later, id, queries, selections, now)
            == (if r.state.Completed? then Replay(r.state.summary) else StoredFailure(r.state.failure), later)
    decreases |ops|
  {
    if ops == [] {
      assert r in t;
    } else {
      StepKeepsFinished(t, ops[0], id, r);
      ApplyKeepsInv(t, ops[0]);
      FinishedForever(Apply(t, ops[0]).1, ops[1..], id, r, queries, selections, now);
    }
  }

  /**
    The integrity trap is never sprung by the budget: it is reached exactly when a completed
    attempt is claimed again under another discovery mode.
   */
  lemma ClaimTrap(t: Table, id: Identity, queries: int, selections: int, now: nat)
    requires Inv(t)
    ensures ClaimSpec(t, id, queries, selections, now).0.IntegrityError? <==>
              ValidClaim(id, queries, selections) && Find(t, id) < |t| && t[Find(t, id)].state.Completed?
              && t[Find(t, id)].state.summary.mode != id.mode
  {
    assert UsedQueries(t, id.run) <= MAX_QUERIES && UsedSelections(t, id.run) <= MAX_SELECTIONS;
    var i := Find(t, id);
    if i < |t| { assert t[i] in t; }
  }

  /** It is reached: claim and complete an attempt, then claim it under another mode. */
  lemma TrapIsReached()
    ensures var id := Identity("run", Intake, seq(64, i => '0'), Official);
            var t := RunAll([], [Claim(id, 1, 1, 0), Complete(id, Summary(Official, true, ["q"], []), 0)]);
            && |t| == 1 && t[0].state.Completed?
            && ClaimSpec(t, id.(mode := Community), 1, 1, 0) == (IntegrityError, t)
            && ClaimSpec(t, id, 1, 1, 0) == (Replay(Summary(Official, true, ["q"], [])), t)
  {
    var id := Identity("run", Intake, seq(64, i => '0'), Official);
    var done := Complete(id, Summary(Official, true, ["q"], []), 0);
    var r := Row("run", Intake, id.digest, 1, 1, 0, 0, Started, 0, None);
    assert NewRow([], id, 1, 1, 0) == r;
    assert Apply([], Claim(id, 1, 1, 0)).1 == [r];
    assert Find([r], id) == 0;
    var f := r.(consumedQueries := 1, state := Completed(done.summary), finishedAt := Some(0));
    assert Apply([r], done).1 == [f];
    assert Find([f], id) == 0 && Find([f], id.(mode := Community)) == 0;
    var ops := [Claim(id, 1, 1, 0), done];
    assert ops[1..] == [done] && ops[1..][1..] == [];
    assert RunAll([f], []) == [f] && RunAll([r], [done]) == [f];
  }

  lemma GrantedWithin(t: Table, id: Identity, queries: int, selections: int)
    requires Inv(t) && queries >= 0 && selections >= 0
    ensures var (q, s) := Granted(t, id, queries, selections);
            && 0 <= q <= queries && 0 <= s <= selections && (q == 0 <==> s == 0)
            && (q > 0 ==> q == queries || UsedQueries(t, id.run) + q == MAX_QUERIES)
            && (s > 0 ==> s == selections || UsedSelections(t, id.run) + s == MAX_SELECTIONS)
            && (q == 0 ==> queries == 0 || selections == 0
                           || UsedQueries(t, id.run) == MAX_QUERIES || UsedSelections(t, id.run) == MAX_SELECTIONS)
  {
    assert UsedQueries(t, id.run) <= MAX_QUERIES && UsedSelections(t, id.run) <= MAX_SELECTIONS;
  }

  /**
    A fresh claim gets all it asks for or all that is left, and gets nothing of either kind as
    soon as one of them is used up.
   */
  lemma ClaimAnswers(t: Table, id: Identity, queries: int, selections: int, now: nat)
    requires Inv(t)
    ensures var (a, t') := ClaimSpec(t, id, queries, selections, now);
            a.Execute? ==>
              && 0 <= a.queries <= queries && 0 <= a.selections <= selections
              && (a.queries == 0 <==> a.selections == 0)
              && (a.queries > 0 ==> a.queries == queries || UsedQueries(t', id.run) == MAX_QUERIES)
              && (a.selections > 0 ==> a.selections == selections || UsedSelections(t', id.run) == MAX_SELECTIONS)
              && (a.queries == 0 ==> queries == 0 || selections == 0
                                     || UsedQueries(t, id.run) == MAX_QUERIES
                                     || UsedSelections(t, id.run) == MAX_SELECTIONS)
  {
    if ValidClaim(id, queries, selections) {
      GrantedWithin(t, id, queries, selections);
      UsedAppend(t, NewRow(t, id, queries, selections, now), id.run);
    }
  }

  /** Completing returns exactly the unused part of the reservation; failing returns nothing. */
  lemma FinishingSettles(t: Table, op: Op, run: string)
    requires Inv(t) && !op.Claim? && Apply(t, op).1 != t
    ensures Find(t, op.id) < |t|
    ensures var r := t[Find(t, op.id)];
            var t' := Apply(t, op).1;
            && UsedQueries(t', run) == UsedQueries(t, run)
               - (if op.Complete? && run == r.run then r.reservedQueries - |op.summary.queries| else 0)
            && UsedSelections(t', run) == UsedSelections(t, run)
               - (if op.Complete? && run == r.run then r.reservedSelections - |op.summary.selected| else 0)
  {
    var i := Find(t, op.id);
    UsedUpdate(t, i, Apply(t, op).1[i], run);
  }

  /** A claim names a run of at most 256 characters and a SHA-256 digest, and asks for at most three queries and two selections. */
  predicate Admissible(id: Identity, queries: int, selections: int) {
    && id.run != "" && |id.run| < 257 && |id.digest| == 64 && (forall c <- id.digest :: c in "0123456789abcdef")
    && queries in {0, 1, 2, 3} && selections in {0, 1, 2}
  }

  /** A summary that can be stored: of the claimed mode, nothing twice, at most 64 queries and two selections. */
  predicate Storable(s: Summary, mode: Mode) {
    && s.mode == mode && |s.queries| < 65 && |s.selected| < 3 && (s.attempted <==> |s.queries| > 0)
    && (forall i, j | 0 <= i < j < |s.queries| :: s.queries[i] != s.queries[j])
    && (forall i, j | 0 <= i < j < |s.selected| :: s.selected[i] != s.selected[j])
  }

  lemma AdmissibleIsValid(id: Identity, queries: int, selections: int)
    ensures ValidClaim(id, queries, selections) <==> Admissible(id, queries, selections)
  {
    assert forall c: char :: c in "0123456789abcdef" <==> '0' <= c <= '9' || 'a' <= c <= 'f';
  }

  /**
    What a claim is answered, for every table: a grant exactly when the request is unknown and its run
    and phase have no started attempt, a conflict exactly when such an attempt stands in the way, and
    otherwise the very summary or failure that is stored. Only a grant changes the table, by the new row.
   */
  lemma ClaimExactly(t: Table, id: Identity, queries: int, selections: int, now: nat)
    requires Inv(t)
    ensures var (a, t') := ClaimSpec(t, id, queries, selections, now);
            var ok, known := Admissible(id, queries, selections), exists r <- t :: Matches(r, id);
            && (a.Invalid? <==> !ok)
            && (a.Execute? <==> ok && !known && forall r <- t :: !(r.state.Started? && r.run == id.run && r.phase == id.phase))
            && (a.Conflict? <==>
                  ok && exists r <- t :: r.state.Started? && r.run == id.run && r.phase == id.phase && (known ==> Matches(r, id)))
            && (forall s :: a == Replay(s) <==>
                  ok && s.mode == id.mode && exists r <- t :: Matches(r, id) && r.state == Completed(s))
            && (forall f :: a == StoredFailure(f) <==> ok && exists r <- t :: Matches(r, id) && r.state == Failed(f))
            && t' == t + if a.Execute? then [Row(id.run, id.phase, id.digest, a.queries, a.selections, 0, 0, Started, now, None)]
                         else []
  {
    var i := Find(t, id);
    AdmissibleIsValid(id, queries, selections);
    assert t + [] == t;
    if i < |t| {
      assert t[i] in t;
      forall r <- t | Matches(r, id) ensures r == t[i] {
        var j :| 0 <= j < |t| && t[j] == r;
        FindUnique(t, id, j);
      }
    } else {
      forall r <- t ensures !Matches(r, id) {
        var j :| 0 <= j < |t| && t[j] == r;
      }
    }
  }

  /** The row of `id` finished with this state and these counts, every other row as it was. */
  ghost predicate FinishesOnly(t: Table, t': Table, id: Identity, i: nat, queries: int, selections: int, state: State, now: nat) {
    && i < |t| == |t'| && Matches(t[i], id) && t[i].state.Started? && t[i].startedAt <= now
    && (forall j | 0 <= j < |t| && j != i :: t'[j] == t[j])
    && t'[i] == Row(id.run, id.phase, id.digest, t[i].reservedQueries, t[i].reservedSelections, queries, selections, state,
                    t[i].startedAt, Some(now))
  }

  /** When a completion is accepted, and what it stores. */
  lemma CompleteExactly(t: Table, id: Identity, s: Summary, now: nat)
    requires Inv(t)
    ensures var (a, t') := CompleteSpec(t, id, s, now);
            && (a == Replay(s) || (a == IntegrityError && t' == t))
            && (a == Replay(s) <==>
                  Storable(s, id.mode) && exists r <- t :: Matches(r, id) && r.state.Started? && r.startedAt <= now
                                                               && |s.queries| <= r.reservedQueries && |s.selected| <= r.reservedSelections)
            && (a == Replay(s) ==> FinishesOnly(t, t', id, Find(t, id), |s.queries|, |s.selected|, Completed(s), now))
  {
    RowIsFound(t, id);
  }

  /** When a failure is accepted, and what it stores. */
  lemma FailExactly(t: Table, id: Identity, f: Failure, now: nat)
    requires Inv(t)
    ensures var (a, t') := FailSpec(t, id, f, now);
            && (a == StoredFailure(f) || (a == IntegrityError && t' == t))
            && (a == StoredFailure(f) <==> exists r <- t :: Matches(r, id) && r.state.Started? && r.startedAt <= now)
            && (a == StoredFailure(f) ==>
                  && Find(t, id) < |t|
                  && FinishesOnly(t, t', id, Find(t, id), t[Find(t, id)].reservedQueries, t[Find(t, id)].reservedSelections,
                                  Failed(f), now))
  {
    RowIsFound(t, id);
  }

  lemma RowIsFound(t: Table, id: Identity)
    requires KeysDistinct(t)
    ensures (exists r <- t :: Matches(r, id)) <==> Find(t, id) < |t|
    ensures Find(t, id) < |t| ==> forall r <- t | Matches(r, id) :: r == t[Find(t, id)]
  {
    var i := Find(t, id);
    if i < |t| { assert t[i] in t; }
    forall r <- t | Matches(r, id) ensures i < |t| && r == t[i] {
      var j :| 0 <= j < |t| && t[j] == r;
      FindUnique(t, id, j);
    }
  }

  /**
    The result handed in is the result handed out: after an accepted completion or failure and any
    further operations, a claim with the same identity answers exactly that summary or failure.
   */
  lemma FinishedAnswers(t: Table, op: Op, ops: seq<Op>, queries: int, selections: int, now: nat)
    requires Inv(t) && !op.Claim? && !Apply(t, op).0.IntegrityError? && ValidClaim(op.id, queries, selections)
    ensures var later := RunAll(Apply(t, op).1, ops);
            ClaimSpec(later, op.id, queries, selections, now)
            == (if op.Complete? then Replay(op.summary) else StoredFailure(op.failure), later)
  {
    var t', i := Apply(t, op).1, Find(t, op.id);
    ApplyKeepsInv(t, op);
    FindUnique(t', op.id, i);
    FinishedForever(t', ops, op.id, t'[i], queries, selections, now);
  }

  /** What a finished row has consumed: exactly what its summary lists, or everything reserved. */
  predicate Settled(r: Row) {
    match r.state
    case Started => r.consumedQueries == 0 && r.consumedSelections == 0
    case Completed(s) =>
      && r.consumedQueries == |s.queries| && r.consumedSelections == |s.selected|
      && Distinct(s.queries) && Distinct(s.selected) && (s.attempted <==> s.queries != [])
    case Failed(_) => r.consumedQueries == r.reservedQueries && r.consumedSelections == r.reservedSelections
  }

  /** In every table that operations lead to, every row has consumed what it reports. */
  lemma {:induction false} AlwaysSettled(t: Table, ops: seq<Op>)
    requires Inv(t) && forall r <- t :: Settled(r)
    ensures forall r <- RunAll(t, ops) :: Settled(r)
    decreases |ops|
  {
    if ops != [] {
      var t' := Apply(t, ops[0]).1;
      forall r <- t' ensures Settled(r) {
        var j :| 0 <= j < |t'| && t'[j] == r;
        if j < |t| && t'[j] == t[j] { assert t[j] in t; }
      }
      ApplyKeepsInv(t, ops[0]);
      AlwaysSettled(t', ops[1..]);
    }
  }

  // ---- the table in place ----

  class Ledger {
    var rows: Table
    const encodedLength: Summary -> nat   // canonical JSON length

    constructor (encodedLength: Summary -> nat)
      ensures rows == [] && Inv(rows) && this.encodedLength == encodedLength
    {
      rows := [];
      this.encodedLength := encodedLength;
    }

    /** `usedDiscoveryBudget`; the integrity trap is dead code. */
    method UsedBudget(run: string) returns (queries: int, selections: int)
      requires Inv(rows)
      ensures queries == UsedQueries(rows, run) <= MAX_QUERIES
      ensures selections == UsedSelections(rows, run) <= MAX_SELECTIONS
    {
      queries, selections := 0, 0;
      var i := 0;
      while i < |rows|
        invariant 0 <= i <= |rows|
        invariant queries == UsedQueries(rows[..i], run) && selections == UsedSelections(rows[..i], run)
      {
        UsedAppend(rows[..i], rows[i], run);
        assert rows[..i + 1] == rows[..i] + [rows[i]];
        queries := queries + ChargedQueries(rows[i], run);
        selections := selections + ChargedSelections(rows[i], run);
        i := i + 1;
      }
      assert rows[..i] == rows;
      if queries > MAX_QUERIES || selections > MAX_SELECTIONS {
        assert false;
      }
    }

    /** `claimTaskSkillDiscoveryAttempt` */
    method ClaimAttempt(id: Identity, queries: int, selections: int, now: nat) returns (answer: Answer)
      requires Inv(rows)
      modifies this
      ensures Inv(rows)
      ensures (answer, rows) == ClaimSpec(old(rows), id, queries, selections, now)
    {
      ClaimKeepsInv(rows, id, queries, selections, now);
      if !ValidClaim(id, queries, selections) { return Invalid; }
      var i := Find(rows, id);
      if i < |rows| { return Resolve(rows[i], id); }
      if exists r <- rows :: ActiveIn(r, id.run, id.phase) { return Conflict; }
      var usedQueries, usedSelections := UsedBudget(id.run);
      var q, s := Min(queries, MAX_QUERIES - usedQueries), Min(selections, MAX_SELECTIONS - usedSelections);
      var grantedQueries := if q == 0 || s == 0 then 0 else q;
      var grantedSelections := if q == 0 || s == 0 then 0 else s;
      rows := rows + [Row(id.run, id.phase, id.digest, grantedQueries, grantedSelections, 0, 0, Started, now, None)];
      answer := Execute(grantedQueries, grantedSelections);
    }

    /** `completeTaskSkillDiscoveryAttempt` */
    method CompleteAttempt(id: Identity, summary: Summary, now: nat) returns (answer: Answer)
      requires Inv(rows)
      modifies this
      ensures Inv(rows)
      ensures if encodedLength(summary) > MAX_SUMMARY_CHARS then answer == IntegrityError && rows == old(rows)
              else (answer, rows) == CompleteSpec(old(rows), id, summary, now)
    {
      ApplyKeepsInv(rows, Complete(id, summary, now));
      if !ValidSummary(summary, id.mode) || encodedLength(summary) > MAX_SUMMARY_CHARS { return IntegrityError; }
      var i := Find(rows, id);
      if i == |rows| || !rows[i].state.Started? { return IntegrityError; }
      if |summary.queries| > rows[i].reservedQueries || |summary.selected| > rows[i].reservedSelections {
        return IntegrityError;
      }
      var finished := Finish(rows[i], |summary.queries|, |summary.selected|, Completed(summary), now);
      assert rows[i] in rows;
      if !ValidRow(finished) { return IntegrityError; }   // the transaction rolls back
      rows := rows[i := finished];
      answer := Replay(summary);
    }

    /** `failTaskSkillDiscoveryAttempt` */
    method FailAttempt(id: Identity, failure: Failure, now: nat) returns (answer: Answer)
      requires Inv(rows)
      modifies this
      ensures Inv(rows)
      ensures (answer, rows) == FailSpec(old(rows), id, failure, now)
    {
      ApplyKeepsInv(rows, Fail(id, failure, now));
      var i := Find(rows, id);
      if i == |rows| || !rows[i].state.Started? { return IntegrityError; }
      var finished := Finish(rows[i], rows[i].reservedQueries, rows[i].reservedSelections, Failed(failure), now);
      assert rows[i] in rows;
      if !ValidRow(finished) { return IntegrityError; }   // the transaction rolls back
      rows := rows[i := finished];
      answer := StoredFailure(failure);
    }
  }
}
