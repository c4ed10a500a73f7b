/**
  Waiting for a concurrent writer to settle, over every sequence of observations
  (src/commands/use.ts:486-586, 648-765).
 */
module Settling {
  import opened Options

  const ATTEMPTS: nat := 50

  datatype Snapshot = Snapshot(identity: nat, content: string, mode: nat)

  /** One look at the target: it changed under the reader, another error, nothing, or a file. */
  datatype Look = Unreadable | Fails | Nothing | Found(snapshot: Snapshot, links: nat)

  /** One scan for private names. */
  datatype Scan = ScanFails | NoArtifact | Artifact(previous: bool, snapshot: Snapshot)

  // ==== adopting a concurrent writer's identical result ====

  /** What the reader wants to find, and what it had planned from. */
  datatype Wish = Wish(content: string, mode: nat, planned: Option<Snapshot>)

  /** The reads of one attempt; the scan is made only when it is needed. */
  datatype Attempt = Attempt(look: Look, scan: Scan)

  datatype Verdict = Adopted(snapshot: Snapshot) | NotAdopted | Threw

  predicate Matches(w: Wish, s: Snapshot) {
    s.content == w.content && s.mode == w.mode
  }

  /** The quarantined file is the one planned from. */
  predicate PlannedArtifact(w: Wish, scan: Scan) {
    w.planned.Some? && scan == Artifact(true, w.planned.value)
  }

  predicate Replaced(w: Wish, s: Snapshot) {
    w.planned.Some? ==> s.identity != w.planned.value.identity
  }

  /** The attempt is inconclusive: look again, given the snapshot seen so far. */
  predicate Waits(w: Wish, a: Attempt, seen: Option<Snapshot>) {
    match a.look
    case Unreadable => true
    case Fails => false
    case Nothing => seen.None? && w.planned.Some? && (a.scan == NoArtifact || PlannedArtifact(w, a.scan))
    case Found(s, links) =>
      && Matches(w, s) && (seen.None? || seen.value == s)
      && (links != 1 || (Replaced(w, s) && PlannedArtifact(w, a.scan)))
  }

  /** The attempt finds the settled target. */
  predicate Settles(w: Wish, a: Attempt, seen: Option<Snapshot>, s: Snapshot) {
    a.look == Found(s, 1) && Matches(w, s) && (seen.None? || seen.value == s) && Replaced(w, s) && a.scan == NoArtifact
  }

  /** The attempt shows that no identical result is coming: nothing there that can still arrive, or other content. */
  predicate GivesUp(w: Wish, a: Attempt, seen: Option<Snapshot>) {
    || (a.look.Nothing? && (seen.Some? || w.planned.None?))
    || (a.look.Nothing? && a.scan.Artifact? && !PlannedArtifact(w, a.scan))
    || (a.look.Found? && seen.None? && !Matches(w, a.look.snapshot))
  }

  /** The attempt fails, or shows a target that changed after it was seen, was written in place, or has a foreign quarantine beside it. */
  predicate Raises(w: Wish, a: Attempt, seen: Option<Snapshot>) {
    || a.look.Fails?
    || (a.look.Nothing? && seen.None? && w.planned.Some? && a.scan.ScanFails?)
    || (a.look.Found? && seen.Some? && a.look.snapshot != seen.value)
    || (&& a.look.Found? && a.look.links == 1 && Matches(w, a.look.snapshot)
        && (!Replaced(w, a.look.snapshot) || a.scan.ScanFails? || (a.scan.Artifact? && !PlannedArtifact(w, a.scan))))
  }

  /** Every attempt is one of the four: inconclusive, settled, given up, or an error. */
  lemma FourWays(w: Wish, a: Attempt, seen: Option<Snapshot>)
    requires seen.Some? ==> Matches(w, seen.value)
    ensures Waits(w, a, seen) || (a.look.Found? && Settles(w, a, seen, a.look.snapshot)) || GivesUp(w, a, seen) || Raises(w, a, seen)
    ensures !(Waits(w, a, seen) && (GivesUp(w, a, seen) || Raises(w, a, seen))) && !(GivesUp(w, a, seen) && Raises(w, a, seen))
    ensures forall s :: Settles(w, a, seen, s) ==> !Waits(w, a, seen) && !GivesUp(w, a, seen) && !Raises(w, a, seen)
  {
  }

  function After(a: Attempt, seen: Option<Snapshot>): Option<Snapshot> {
    if a.look.Found? then Some(a.look.snapshot) else seen
  }

  /** The last snapshot seen in the first `k` attempts. */
  function Seen(trace: nat -> Attempt, k: nat): Option<Snapshot> {
    if k == 0 then None else After(trace(k - 1), Seen(trace, k - 1))
  }

  predicate WaitsAt(w: Wish, trace: nat -> Attempt, j: nat) {
    Waits(w, trace(j), Seen(trace, j))
  }

  ghost predicate Waiting(w: Wish, trace: nat -> Attempt, k: nat) {
    forall j: nat {:trigger WaitsAt(w, trace, j)} | j < k :: WaitsAt(w, trace, j)
  }

  ghost predicate SettlesAt(w: Wish, trace: nat -> Attempt, k: nat, s: Snapshot) {
    k < ATTEMPTS && Waiting(w, trace, k) && Settles(w, trace(k), Seen(trace, k), s)
  }

  ghost predicate GivesUpAt(w: Wish, trace: nat -> Attempt, k: nat) {
    k < ATTEMPTS && Waiting(w, trace, k) && GivesUp(w, trace(k), Seen(trace, k))
  }

  ghost predicate RaisesAt(w: Wish, trace: nat -> Attempt, k: nat) {
    k < ATTEMPTS && Waiting(w, trace, k) && Raises(w, trace(k), Seen(trace, k))
  }

  /** All attempts were inconclusive; the last one found neither a target nor a quarantine, or something unsettled. */
  ghost predicate RunsOut(w: Wish, trace: nat -> Attempt, withNothing: bool) {
    Waiting(w, trace, ATTEMPTS) && (withNothing <==> trace(ATTEMPTS - 1) == Attempt(Nothing, NoArtifact))
  }

  /** How the observation ends: at the first attempt that is not inconclusive, or when there are no more. */
  ghost predicate EndsAs(w: Wish, trace: nat -> Attempt, r: Verdict) {
    match r
    case Adopted(s) => exists k: nat :: SettlesAt(w, trace, k, s)
    case NotAdopted => RunsOut(w, trace, true) || exists k: nat :: GivesUpAt(w, trace, k)
    case Threw => RunsOut(w, trace, false) || exists k: nat :: RaisesAt(w, trace, k)
  }

  /**
    `readIdenticalTargetAfterConflict`: a snapshot is adopted exactly when some attempt settles on
    it after inconclusive ones only; none is adopted exactly when an attempt gives up, or the last of
    fifty inconclusive ones found nothing at all; everything else is an error.
   */
  method ReadIdenticalTarget(w: Wish, trace: nat -> Attempt) returns (r: Verdict)
    ensures forall v: Verdict :: r == v <==> EndsAs(w, trace, v)
  {
    r := ObserveUntilSettled(w, trace);
    forall v: Verdict | EndsAs(w, trace, v) ensures v == r { OneEnd(w, trace, v, r); }
  }

  method ObserveUntilSettled(w: Wish, trace: nat -> Attempt) returns (r: Verdict)
    ensures EndsAs(w, trace, r)
  {
    var candidate: Option<Snapshot> := None;
    var last: Option<Look> := None;
    var pendingLast := false;
    var attempt := 0;
    while attempt < ATTEMPTS
      invariant 0 <= attempt <= ATTEMPTS && Waiting(w, trace, attempt) && candidate == Seen(trace, attempt)
      invariant candidate.Some? ==> Matches(w, candidate.value)
      invariant attempt == ATTEMPTS ==> trace(attempt - 1) != Attempt(Nothing, NoArtifact)
      invariant attempt == ATTEMPTS ==> pendingLast || (last.Some? && last.value.Found? && last.value.links != 1)
      decreases ATTEMPTS - attempt
    {
      var a := trace(attempt);
      match a.look {
        case Unreadable =>
          assert WaitsAt(w, trace, attempt);
          if attempt + 1 == ATTEMPTS {
            assert RunsOut(w, trace, false);
            return Threw;
          }
          attempt := attempt + 1;
          continue;
        case Fails =>
          assert RaisesAt(w, trace, attempt);
          return Threw;
        case Nothing =>
          if candidate.Some? || w.planned.None? {
            assert GivesUpAt(w, trace, attempt);
            return NotAdopted;
          }
          last := Some(a.look);
          if a.scan.ScanFails? {
            assert RaisesAt(w, trace, attempt);
            return Threw;
          }
          if a.scan.NoArtifact? && attempt + 1 < ATTEMPTS {
            assert WaitsAt(w, trace, attempt);
            attempt := attempt + 1;
            continue;
          }
          if !PlannedArtifact(w, a.scan) {
            assert a.scan.NoArtifact? ==> WaitsAt(w, trace, attempt) && RunsOut(w, trace, true);
            assert a.scan.Artifact? ==> GivesUpAt(w, trace, attempt);
            return NotAdopted;
          }
          pendingLast := true;
        case Found(s, links) =>
          if candidate.Some? && (!Matches(w, s) || candidate.value != s) {
            assert RaisesAt(w, trace, attempt);
            return Threw;
          }
          last := Some(a.look);
          if !Matches(w, s) {
            assert GivesUpAt(w, trace, attempt);
            return NotAdopted;
          }
          if links != 1 {
            candidate, pendingLast := Some(s), false;
          } else {
            if !Replaced(w, s) || a.scan.ScanFails? {
              assert RaisesAt(w, trace, attempt);
              return Threw;
            }
            if a.scan.NoArtifact? {
              assert SettlesAt(w, trace, attempt, s);
              return Adopted(s);
            }
            if !PlannedArtifact(w, a.scan) {
              assert RaisesAt(w, trace, attempt);
              return Threw;
            }
            candidate, pendingLast := Some(s), true;
          }
      }
      assert WaitsAt(w, trace, attempt);
      attempt := attempt + 1;
    }
    assert RunsOut(w, trace, false);
    if last.Some? && last.value.Found? && last.value.links != 1 { return Threw; }
    if pendingLast { return Threw; }
    r := NotAdopted;
  }

  lemma SeenMatches(w: Wish, trace: nat -> Attempt, k: nat)
    requires Waiting(w, trace, k)
    ensures Seen(trace, k).Some? ==> Matches(w, Seen(trace, k).value)
  {
    if k > 0 {
      assert WaitsAt(w, trace, k - 1);
      SeenMatches(w, trace, k - 1);
    }
  }

  /** The attempt at which the observation ends as `r`, the bound if all were inconclusive. */
  ghost predicate EndsThere(w: Wish, trace: nat -> Attempt, k: nat, r: Verdict) {
    && k <= ATTEMPTS && Waiting(w, trace, k)
    && if k == ATTEMPTS then !r.Adopted? && RunsOut(w, trace, r.NotAdopted?)
       else match r
         case Adopted(s) => SettlesAt(w, trace, k, s)
         case NotAdopted => GivesUpAt(w, trace, k)
         case Threw => RaisesAt(w, trace, k)
  }

  lemma EndsSomewhere(w: Wish, trace: nat -> Attempt, r: Verdict) returns (k: nat)
    requires EndsAs(w, trace, r)
    ensures EndsThere(w, trace, k, r)
  {
    if !r.Adopted? && RunsOut(w, trace, r.NotAdopted?) {
      k := ATTEMPTS;
    } else {
      match r
      case Adopted(s) => k :| SettlesAt(w, trace, k, s);
      case NotAdopted => k :| GivesUpAt(w, trace, k);
      case Threw => k :| RaisesAt(w, trace, k);
    }
  }

  lemma NoEarlierEnd(w: Wish, trace: nat -> Attempt, j: nat, k: nat, r: Verdict)
    requires j < k && Waiting(w, trace, k) && j < ATTEMPTS
    ensures !EndsThere(w, trace, j, r)
  {
    assert WaitsAt(w, trace, j);
    SeenMatches(w, trace, j);
    FourWays(w, trace(j), Seen(trace, j));
  }

  /** An observation ends in one way only. */
  lemma OneEnd(w: Wish, trace: nat -> Attempt, a: Verdict, b: Verdict)
    requires EndsAs(w, trace, a) && EndsAs(w, trace, b)
    ensures a == b
  {
    var j := EndsSomewhere(w, trace, a);
    var k := EndsSomewhere(w, trace, b);
    if j < k {
      NoEarlierEnd(w, trace, j, k, a);
    } else if k < j {
      NoEarlierEnd(w, trace, k, j, b);
    } else if j < ATTEMPTS {
      SeenMatches(w, trace, j);
      FourWays(w, trace(j), Seen(trace, j));
    }
  }

  lemma NotBoth(w: Wish, trace: nat -> Attempt, j: nat, s: Snapshot)
    requires WaitsAt(w, trace, j)
    ensures !SettlesAt(w, trace, j, s)
  {
  }

  lemma WaitedBefore(w: Wish, trace: nat -> Attempt, k: nat, j: nat, s: Snapshot)
    requires k < j && SettlesAt(w, trace, j, s)
    ensures WaitsAt(w, trace, k)
  {
  }

  lemma {:induction false} SeenStays(w: Wish, trace: nat -> Attempt, j: nat, k: nat)
    requires j <= k && Waiting(w, trace, k) && Seen(trace, j).Some?
    ensures Seen(trace, k) == Seen(trace, j)
    decreases k
  {
    if j < k {
      SeenStays(w, trace, j, k - 1);
      assert WaitsAt(w, trace, k - 1);
    }
  }

  /**
    An adopted snapshot has the wanted content and mode, one link, no quarantine beside it, and an
    inode other than the planned one; and every target seen on the way was that same snapshot.
   */
  lemma AdoptedIsSettled(w: Wish, trace: nat -> Attempt, k: nat, s: Snapshot)
    requires SettlesAt(w, trace, k, s)
    ensures s.content == w.content && s.mode == w.mode
    ensures trace(k) == Attempt(Found(s, 1), NoArtifact)
    ensures w.planned.Some? ==> s.identity != w.planned.value.identity
    ensures forall j: nat | j <= k :: trace(j).look.Found? ==> trace(j).look.snapshot == s
    ensures forall j: nat | j < k && trace(j).look.Nothing? :: forall i: nat | i < j :: !trace(i).look.Found?
  {
    forall j: nat | j < k && trace(j).look.Found? ensures trace(j).look.snapshot == s {
      SeenStays(w, trace, j + 1, k);
    }
    forall j: nat, i: nat | j < k && trace(j).look.Nothing? && i < j ensures !trace(i).look.Found? {
      assert WaitsAt(w, trace, j);
      if trace(i).look.Found? {
        SeenStays(w, trace, i + 1, j);
      }
    }
  }

  /** At most one snapshot, at one attempt, can be adopted from a trace. */
  lemma AdoptionIsUnique(w: Wish, trace: nat -> Attempt, j: nat, k: nat, s: Snapshot, t: Snapshot)
    requires SettlesAt(w, trace, j, s) && SettlesAt(w, trace, k, t)
    ensures j == k && s == t
  {
    if j < k {
      WaitedBefore(w, trace, j, k, t);
      NotBoth(w, trace, j, s);
    } else if k < j {
      WaitedBefore(w, trace, k, j, s);
      NotBoth(w, trace, k, t);
    }
  }

  // ==== reading a binding file that others may be replacing ====

  /** The reads of one round; the second pair is made when the first finds neither file nor artifact. */
  datatype Round = Round(look: Look, scan: Scan, relook: Look, rescan: Scan)

  datatype Answer = Settled(snapshot: Snapshot) | Absent | Refused

  /** What a round amounts to. */
  function View(r: Round): Attempt {
    if r.look.Nothing? && r.scan.NoArtifact? then
      if r.relook.Nothing? then Attempt(Nothing, r.rescan) else Attempt(r.relook, NoArtifact)
    else Attempt(r.look, r.scan)
  }

  predicate SawArtifact(v: Attempt) {
    (v.look.Nothing? || v.look.Found?) && v.scan.Artifact?
  }

  /** The target seen so far, and the original seen in quarantine. */
  datatype Known = Known(target: Option<Snapshot>, original: Option<Snapshot>)

  predicate Agrees(seen: Option<Snapshot>, s: Snapshot) {
    seen.None? || seen.value == s
  }

  /** A target that was seen may not vanish. */
  predicate Vanished(r: Round, known: Known) {
    r.look.Nothing? && known.target.Some?
  }

  predicate RoundWaits(r: Round, known: Known) {
    var v := View(r);
    && !Vanished(r, known)
    && match v.look
       case Unreadable => true
       case Fails => false
       case Nothing => v.scan.Artifact? && v.scan.previous && Agrees(known.original, v.scan.snapshot)
       case Found(s, links) =>
         && Agrees(known.target, s)
         && match v.scan
            case ScanFails => false
            case NoArtifact => links != 1
            case Artifact(previous, original) => previous && Agrees(known.original, original)
  }

  predicate RoundSettles(r: Round, known: Known, s: Snapshot) {
    !Vanished(r, known) && View(r) == Attempt(Found(s, 1), NoArtifact) && Agrees(known.target, s)
  }

  predicate RoundAbsent(r: Round, known: Known) {
    View(r) == Attempt(Nothing, NoArtifact) && known == Known(None, None)
  }

  /**
    The round fails, shows a target that vanished or changed, a quarantine that is no original or not
    the one seen before, or nothing at all after an original was seen.
   */
  predicate RoundRefuses(r: Round, known: Known) {
    || r.look.Fails? || (!r.look.Unreadable? && r.scan.ScanFails?) || (r.look.Nothing? && known.target.Some?)
    || (r.look.Nothing? && r.scan.NoArtifact? && RelookRefuses(r, known))
    || (!r.look.Unreadable? && r.scan.Artifact? && Strange(r.scan, known))
    || (r.look.Found? && known.target.Some? && r.look.snapshot != known.target.value)
  }

  predicate RelookRefuses(r: Round, known: Known) {
    || r.relook.Fails?
    || (r.relook.Found? && known.target.Some? && r.relook.snapshot != known.target.value)
    || (r.relook.Nothing? && (r.rescan.ScanFails? || (r.rescan.NoArtifact? && known.original.Some?)
                              || (r.rescan.Artifact? && Strange(r.rescan, known))))
  }

  predicate Strange(scan: Scan, known: Known)
    requires scan.Artifact?
  {
    !scan.previous || (known.original.Some? && scan.snapshot != known.original.value)
  }

  /** Every round is one of the four: inconclusive, settled, absent, or refused. */
  lemma FourRounds(r: Round, known: Known)
    ensures || RoundWaits(r, known) || (View(r).look.Found? && RoundSettles(r, known, View(r).look.snapshot))
            || RoundAbsent(r, known) || RoundRefuses(r, known)
    ensures !(RoundRefuses(r, known) && (RoundWaits(r, known) || RoundAbsent(r, known))) && !(RoundWaits(r, known) && RoundAbsent(r, known))
    ensures forall s :: RoundSettles(r, known, s) ==> !RoundWaits(r, known) && !RoundAbsent(r, known) && !RoundRefuses(r, known)
  {
  }

  function Learn(r: Round, known: Known): Known {
    var v := View(r);
    Known(if v.look.Found? then Some(v.look.snapshot) else known.target,
          if SawArtifact(v) then Some(v.scan.snapshot) else known.original)
  }

  function KnownAfter(trace: nat -> Round, k: nat): Known {
    if k == 0 then Known(None, None) else Learn(trace(k - 1), KnownAfter(trace, k - 1))
  }

  predicate RoundWaitsAt(trace: nat -> Round, j: nat) {
    RoundWaits(trace(j), KnownAfter(trace, j))
  }

  ghost predicate RoundsWait(trace: nat -> Round, k: nat) {
    forall j: nat {:trigger RoundWaitsAt(trace, j)} | j < k :: RoundWaitsAt(trace, j)
  }

  ghost predicate EndsAt(trace: nat -> Round, k: nat, answer: Answer) {
    if k < ATTEMPTS then
      && RoundsWait(trace, k)
      && match answer
         case Settled(s) => RoundSettles(trace(k), KnownAfter(trace, k), s)
         case Absent => RoundAbsent(trace(k), KnownAfter(trace, k))
         case Refused => RoundRefuses(trace(k), KnownAfter(trace, k))
    else k == ATTEMPTS && RoundsWait(trace, k) && answer.Refused?
  }

  ghost predicate Ends(trace: nat -> Round, answer: Answer) {
    exists k: nat :: EndsAt(trace, k, answer)
  }

  /**
    `readSettledBindingSnapshot`: it returns a snapshot, or absence, or refuses, exactly when some
    round ends so after inconclusive ones only; fifty inconclusive rounds are a refusal.
   */
  method ReadSettledBinding(trace: nat -> Round) returns (r: Answer)
    ensures forall answer: Answer :: r == answer <==> Ends(trace, answer)
  {
    var k;
    r, k := ObserveBinding(trace);
    forall answer: Answer | Ends(trace, answer) ensures answer == r {
      var j: nat :| EndsAt(trace, j, answer);
      OneRound(trace, j, answer, k, r);
    }
  }

  method ObserveBinding(trace: nat -> Round) returns (r: Answer, attempt: nat)
    ensures EndsAt(trace, attempt, r)
  {
    var known := Known(None, None);
    attempt := 0;
    while attempt < ATTEMPTS
      invariant 0 <= attempt <= ATTEMPTS && RoundsWait(trace, attempt) && known == KnownAfter(trace, attempt)
      decreases ATTEMPTS - attempt
    {
      var round := trace(attempt);
      FourRounds(round, known);
      assert RoundWaitsAt(trace, attempt) <==> RoundWaits(round, known);
      var observed, pending := round.look, round.scan;
      if observed.Unreadable? {
        attempt := attempt + 1;
        continue;
      }
      if observed.Fails? || pending.ScanFails? || (observed.Nothing? && known.target.Some?) { return Refused, attempt; }
      if observed.Nothing? && pending.NoArtifact? {
        observed := round.relook;
        if observed.Unreadable? {
          attempt := attempt + 1;
          continue;
        }
        if observed.Fails? { return Refused, attempt; }
        if observed.Nothing? {
          pending := round.rescan;
          if pending.ScanFails? { return Refused, attempt; }
          if pending.NoArtifact? {
            if known.original.Some? { return Refused, attempt; }
            return Absent, attempt;
          }
        }
      }
      if pending.Artifact? {
        if !pending.previous || !Agrees(known.original, pending.snapshot) { return Refused, attempt; }
        known := known.(original := Some(pending.snapshot));
      }
      if observed.Found? {
        if !Agrees(known.target, observed.snapshot) { return Refused, attempt; }
        known := known.(target := Some(observed.snapshot));
        if pending.NoArtifact? && observed.links == 1 {
          return Settled(observed.snapshot), attempt;
        }
      }
      attempt := attempt + 1;
    }
    r := Refused;
  }

  lemma NoEarlierRound(trace: nat -> Round, j: nat, k: nat, answer: Answer)
    requires j < k <= ATTEMPTS && RoundsWait(trace, k)
    ensures !EndsAt(trace, j, answer)
  {
    assert RoundWaitsAt(trace, j);
    FourRounds(trace(j), KnownAfter(trace, j));
  }

  /** A trace of rounds ends in one way only. */
  lemma OneRound(trace: nat -> Round, j: nat, a: Answer, k: nat, b: Answer)
    requires EndsAt(trace, j, a) && EndsAt(trace, k, b)
    ensures a == b
  {
    if j < k {
      NoEarlierRound(trace, j, k, a);
    } else if k < j {
      NoEarlierRound(trace, k, j, b);
    } else if j < ATTEMPTS {
      FourRounds(trace(j), KnownAfter(trace, j));
    }
  }

  lemma {:induction false} KnownStays(trace: nat -> Round, j: nat, k: nat)
    requires j <= k && RoundsWait(trace, k)
    ensures KnownAfter(trace, j).target.Some? ==> KnownAfter(trace, k).target == KnownAfter(trace, j).target
    ensures KnownAfter(trace, j).original.Some? ==> KnownAfter(trace, k).original == KnownAfter(trace, j).original
    decreases k
  {
    if j < k {
      KnownStays(trace, j, k - 1);
      assert RoundWaitsAt(trace, k - 1);
    }
  }

  /** The snapshot returned equals every target observed, and stands alone under one name. */
  lemma SettledAgreesWithAll(trace: nat -> Round, k: nat, s: Snapshot)
    requires EndsAt(trace, k, Settled(s))
    ensures View(trace(k)) == Attempt(Found(s, 1), NoArtifact)
    ensures forall j: nat | j <= k :: View(trace(j)).look.Found? ==> View(trace(j)).look.snapshot == s
    ensures forall i: nat, j: nat | i < j <= k && View(trace(i)).look.Found? :: !trace(j).look.Nothing?
  {
    forall j: nat | j < k && View(trace(j)).look.Found? ensures View(trace(j)).look.snapshot == s {
      KnownStays(trace, j + 1, k);
    }
    forall i: nat, j: nat | i < j <= k && View(trace(i)).look.Found? ensures !trace(j).look.Nothing? {
      RoundsWaitPrefix(trace, j, k);
      KnownStays(trace, i + 1, j);
      assert j < k ==> RoundWaitsAt(trace, j);
    }
  }

  lemma RoundsWaitPrefix(trace: nat -> Round, j: nat, k: nat)
    requires j <= k && RoundsWait(trace, k)
    ensures RoundsWait(trace, j)
  {
  }

  /** Absence is returned only if neither a target nor a quarantine was ever seen. */
  lemma AbsentSawNothing(trace: nat -> Round, k: nat)
    requires EndsAt(trace, k, Absent)
    ensures forall j: nat | j <= k :: !View(trace(j)).look.Found? && !SawArtifact(View(trace(j)))
  {
    forall j: nat | j < k ensures !View(trace(j)).look.Found? && !SawArtifact(View(trace(j))) {
      KnownStays(trace, j + 1, k);
    }
  }
}
