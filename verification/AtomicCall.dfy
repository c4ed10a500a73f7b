/**
  One conditional call, in the source's own form: a sequence of bound reads, hooks,
  renames, links and unlinks (src/agent-file/atomic-write.ts).

  The rest of the world moves before every single filesystem call (`env`) and at every
  hook (`hook`), by arbitrary strategies that keep inodes unused twice and other calls'
  UUID names alone, and `faults` decides which interactions throw. Contracts speak about
  the call's own record (`own`), which every step advances as `AtomicProtocol` allows and
  `trace` remembers, and, for undisturbed runs, about the view of the directory.
 */
module AtomicCall {
  import opened Options
  import opened AtomicProtocol
  import opened AtomicTrace
  import opened AtomicRace

  datatype Cause = TargetChanged | AlternateAppeared | Integrity | Io | HookFailed

  /** `AtomicCleanupFailure`: the pathname only when the artifact was proven to be there. */
  datatype CleanupFailure = CleanupFailure(path: Option<Name>)

  datatype ErrorClass = Uncommitted | CommittedMutation | CommittedUnlink

  datatype Outcome =
    | Returned(failures: seq<CleanupFailure>)
    | Threw(errorClass: ErrorClass, cause: Cause, failures: seq<CleanupFailure>)

  datatype Reading = Read(artifact: Option<Artifact>) | Unreadable

  /** The file of kind `k` still has one of this call's private names. */
  predicate Left(own: Own, k: Kind) {
    InodeOf(own, k).Some? && k !in own.erased
  }

  /** Everything in `after` but the fate of kind `k`'s artifact is as in `before`. */
  predicate OnlyDisposes(before: Own, after: Own, k: Kind) {
    && after == before.(disposed := after.disposed, erased := after.erased)
    && (after.disposed == before.disposed || after.disposed == before.disposed + {k})
    && (after.erased == before.erased || after.erased == before.erased + {k})
  }

  lemma AsideThenGone(before: Own, aside: Own, after: Own, k: Kind)
    requires aside == before || aside == before.(disposed := before.disposed + {k})
    requires after == aside || after == aside.(erased := aside.erased + {k})
    ensures OnlyDisposes(before, after, k)
  {
  }

  /** Moving to an unused name and dropping that name leaves the rest. */
  lemma MovedThenGone(v: map<Name, Artifact>, from: Name, to: Name, a: Artifact)
    ensures to !in v ==> Fewer((v - {from})[to := a] - {to}, a.snapshot.inode) == Fewer(v - {from}, a.snapshot.inode)
  {
    assert to !in v ==> (v - {from})[to := a] - {to} == v - {from};
  }

  /** Linking one more name and dropping another leaves every link count as it was. */
  lemma MoreThenFewer(v: map<Name, Artifact>, gone: Name, n: Name, a: Artifact)
    requires gone != n
    ensures Fewer(More(v[n := a], a.snapshot.inode) - {gone}, a.snapshot.inode) == (v - {gone})[n := a]
  {
  }

  /** The reported pathnames are this call's, of one of the kinds `ks`, and exist. */
  ghost predicate NamedIn(fs: Fs, me: Pid, failures: seq<CleanupFailure>, ks: set<Kind>) {
    forall f <- failures | f.path.Some? ::
      Owned(f.path.value, me) && f.path.value.kind in ks && f.path.value in fs.names
  }

  predicate Audited(n: nat, fs: Fs, own: Own) {
    true
  }

  /** `Accounts`, spelled out only where `Audit` asks for it. */
  ghost predicate Filed(fs: Fs, me: Pid, own: Own) {
    forall n: nat {:trigger Audited(n, fs, own)} :: Audited(n, fs, own) ==> Accounts(fs, me, own)
  }

  lemma Audit(fs: Fs, me: Pid, own: Own)
    requires Filed(fs, me, own)
    ensures Accounts(fs, me, own)
  {
    assert Audited(0, fs, own);
  }

  /** Reported names stay valid whatever everyone else does, and while the call leaves the
      artifacts of those kinds alone. */
  lemma StillNamed(me: Pid, fs: Fs, own: Own, fs': Fs, own': Own, failures: seq<CleanupFailure>, ks: set<Kind>)
    requires Filed(fs, me, own) && Filed(fs', me, own') && NamedIn(fs, me, failures, ks)
    requires forall k <- ks :: Expects(own', k) == Expects(own, k)
    ensures NamedIn(fs', me, failures, ks)
  {
    Audit(fs, me, own);
    Audit(fs', me, own');
    forall f <- failures | f.path.Some?
      ensures f.path.value in fs'.names
    {
      assert NameAccounted(fs, me, own, f.path.value.kind);
      assert NameAccounted(fs', me, own', f.path.value.kind);
    }
  }

  /** How `conditionalUnlinkInstalled` ends. */
  datatype Retraction =
    | TookBack(failures: seq<CleanupFailure>)
    | NotTaken(cause: Cause)                                          // threw before its rename
    | TookBackThrowing(cause: Cause, failures: seq<CleanupFailure>)   // AtomicCommittedUnlinkError

  datatype Taking = Taken(planned: Artifact) | Refused(outcome: Outcome)

  /** `FileExpectation`: the planned target and the paths that must stay absent. */
  datatype Expectation = Expectation(expected: Option<Snapshot>, absent: seq<Name>)

  function SnapshotIn(v: map<Name, Artifact>): Option<Snapshot> {
    if Target in v then Some(v[Target].snapshot) else None
  }

  /** The directory is as the expectation says. */
  ghost predicate AsExpected(fs: Fs, x: Expectation) {
    && WellFormed(fs) && (forall n <- x.absent :: n !in fs.names)
    && x.expected == if Target in fs.names then Some(SnapshotOf(fs, fs.names[Target])) else None
  }

  function IdentityOf(s: Option<Snapshot>): Option<Inode> {
    if s.Some? then Some(s.value.inode) else None
  }

  /** What a writer's outcome says about its own effect on the target. */
  predicate Truthful(own: Own, outcome: Outcome) {
    match outcome
    case Returned(_) => InPlace(own) && own.settled && own.captured == own.expected && !own.relinked
    case Threw(CommittedMutation, _, _) => InPlace(own)
    case Threw(CommittedUnlink, _, _) => !InPlace(own) && own.captured.Some? && !own.confirmed
    case Threw(Uncommitted, _, failures) =>
      && !InPlace(own) && (own.captured.None? || own.confirmed)
      && (own.retracted.Some? && own.retracted != own.created ==> failures != [])
  }

  /** What an unlinker's outcome says about its own effect on the target. */
  predicate TruthfulUnlink(own: Own, outcome: Outcome) {
    match outcome
    case Returned(_) => own.settled && own.captured.Some? && own.captured == own.expected && !own.relinked
    case Threw(CommittedMutation, _, _) => false
    case Threw(CommittedUnlink, _, _) => own.captured.Some? && !own.confirmed
    case Threw(Uncommitted, _, _) => own.captured.None? || own.confirmed
  }

  /** The call took nothing off the target but the planned file and its own. */
  predicate ExactlyOwn(own: Own) {
    (own.captured.Some? ==> own.captured == own.expected) && (own.retracted.Some? ==> own.retracted == own.created)
  }

  /** The bytes and mode of an artifact. */
  function FileOf(a: Artifact): File {
    File(a.snapshot.content, a.snapshot.mode)
  }

  /** The first candidate name that shows its exact file. */
  function FirstBound(v: map<Name, Artifact>, candidates: seq<(Name, Artifact)>): Option<Name> {
    if candidates == [] then None
    else if candidates[0].0 in v && v[candidates[0].0].snapshot == candidates[0].1.snapshot then Some(candidates[0].0)
    else FirstBound(v, candidates[1..])
  }

  lemma FirstOfTwo(v: map<Name, Artifact>, a: (Name, Artifact), b: (Name, Artifact))
    ensures FirstBound(v, [a, b]) == if a.0 in v && v[a.0].snapshot == a.1.snapshot then Some(a.0) else FirstBound(v, [b])
    ensures FirstBound(v, [b]) == if b.0 in v && v[b.0].snapshot == b.1.snapshot then Some(b.0) else None
  {
    assert [a, b][1..] == [b] && [b][1..] == [];
  }

  /** The name is bound to exactly this inode, with these bytes and this mode. */
  ghost predicate Shows(fs: Fs, n: Name, s: Snapshot) {
    WellFormed(fs) && n in fs.names && SnapshotOf(fs, fs.names[n]) == s
  }

  const ALL_KINDS: set<Kind> := {Tmp, Previous, Rollback, Deleted}

  datatype Preparation = Ready(temp: Artifact) | NotReady(outcome: Outcome)

  /** A private name in the directory belongs to an artifact the record still lists. */
  lemma OnlyIfLeft(fs: Fs, me: Pid, own: Own)
    requires Filed(fs, me, own)
    ensures Leftover(fs, me) ==> Left(own, Tmp) || Left(own, Quarantine(own.role)) || Left(own, Rollback)
  {
    Audit(fs, me, own);
    if Leftover(fs, me) {
      var n :| Owned(n, me) && n in fs.names;
      assert NameAccounted(fs, me, own, n.kind);
    }
  }

  /** A file with one link has no second name. */
  lemma SingleLinkIsOnlyName(fs: Fs, n: Name, m: Name)
    requires n in fs.names && m in fs.names && fs.names[m] == fs.names[n] && LinkCount(fs, fs.names[n]) == 1
    ensures m == n
  {
    var names := NamesOf(fs, fs.names[n]);
    assert |names - {n}| == 0;
    assert m in names;
  }

  /** Rewriting a singly linked file changes one entry of the view. */
  lemma WriteView(fs: Fs, me: Pid, own: Own, n: Name, f: File)
    requires WellFormed(fs) && n in View(fs, me) && LinkCount(fs, fs.names[n]) == 1
    ensures ViewAfter(View(fs, me), me, own.role, Write(fs.names[n], f))
            == View(fs, me)[n := Artifact(Snapshot(fs.names[n], f.content, f.mode), 1)]
  {
    forall m | m in View(fs, me) && fs.names[m] == fs.names[n]
      ensures m == n
    {
      SingleLinkIsOnlyName(fs, n, m);
    }
  }

  /** Dropping one name of a file leaves the entries of other files alone. */
  lemma FewerKeeps(v: map<Name, Artifact>, gone: Name, i: Inode, n: Name)
    requires n != gone
    ensures n in v && v[n].snapshot.inode != i ==>
              n in Fewer(v - {gone}, i) && Fewer(v - {gone}, i)[n] == v[n]
  {
  }

  /** A file under a private name keeps its bytes when nobody changes what the call can see. */
  lemma StillPrepared(s: Fs, s': Fs, me: Pid, own: Own)
    requires WellFormed(s) && WellFormed(s') && Accounts(s, me, own) && Accounts(s', me, own) && Apart(me, s, s')
    requires own.created.Some? && Tmp !in own.erased
    ensures own.created.value in s.files && own.created.value in s'.files
    ensures SnapshotOf(s', own.created.value) == SnapshotOf(s, own.created.value)
  {
    assert NameAccounted(s, me, own, Tmp) && NameAccounted(s', me, own, Tmp);
    ApartObserves(me, s, s', Private(me, Tmp));
    ApartObserves(me, s, s', Disposal(me, Tmp));
  }

  /** Before anything is quarantined, a call sees the target and its temporary file at most. */
  lemma SeesOnly(fs: Fs, me: Pid, own: Own)
    requires WellFormed(fs) && Filed(fs, me, own)
    requires own.captured.None? && own.retracted.None? && own.disposed == {}
    ensures View(fs, me).Keys <= {Target, Private(me, Tmp)}
    ensures own.created.None? ==> View(fs, me).Keys <= {Target}
  {
    Audit(fs, me, own);
    forall n <- View(fs, me).Keys
      ensures n == Target || (n == Private(me, Tmp) && own.created.Some?)
    {
      if n != Target {
        assert NameAccounted(fs, me, own, n.kind);
      }
    }
  }

  /** The view after the link, in terms of the view `v` before the call touched the target. */
  function InstalledView(v: map<Name, Artifact>, me: Pid, temp: Artifact): map<Name, Artifact> {
    v[Target := temp.(links := 2)][Private(me, Tmp) := temp.(links := 2)]
  }

  /** Quarantining, linking and then dropping the original leaves the new file in its place;
      taking the new file back instead and relinking the original changes nothing. */
  lemma InstallAlgebra(v: map<Name, Artifact>, me: Pid, temp: Artifact, q: Option<Artifact>)
    requires v.Keys <= {Target, Private(me, Tmp)}
    requires Private(me, Tmp) in v && v[Private(me, Tmp)] == temp && temp.links == 1
    requires if q.Some? then Target in v && v[Target] == q.value else Target !in v
    requires q.Some? ==> q.value.snapshot.inode != temp.snapshot.inode
    ensures var t := temp.snapshot.inode;
            var v1 := if q.Some? then (v - {Target})[Private(me, Previous) := q.value] else v;
            var v2 := More(v1[Target := temp], t);
            && v2[Target] == temp.(links := 2)
            && v2[Private(me, Tmp)] == temp.(links := 2)
            && (q.Some? ==> v2[Private(me, Previous)] == q.value)
            && (if q.Some? then Fewer(v2 - {Private(me, Previous)}, q.value.snapshot.inode) else v2)
               == InstalledView(v, me, temp)
            && var back := Fewer(v2 - {Target}, t);
               (if q.Some? then (back - {Private(me, Previous)})[Target := q.value] else back) == v
  {
  }

  /** A singly linked temporary file is not at the target. */
  lemma TemporaryIsApart(fs: Fs, me: Pid, own: Own)
    requires WellFormed(fs) && Filed(fs, me, own) && own.created.Some? && Tmp !in own.disposed
    ensures LinkCount(fs, own.created.value) == 1 && Target in fs.names ==> fs.names[Target] != own.created.value
  {
    Audit(fs, me, own);
    assert NameAccounted(fs, me, own, Tmp);
    if LinkCount(fs, own.created.value) == 1 && Target in fs.names && fs.names[Target] == own.created.value {
      SingleLinkIsOnlyName(fs, Private(me, Tmp), Target);
    }
  }

  /** Dropping the temporary name at the end. */
  lemma FinishAlgebra(v: map<Name, Artifact>, me: Pid, temp: Artifact)
    requires v.Keys <= {Target} && temp.links == 1
    requires Target in v ==> v[Target].snapshot.inode != temp.snapshot.inode
    ensures var prepared := v[Private(me, Tmp) := temp];
            && Fewer(prepared - {Private(me, Tmp)}, temp.snapshot.inode) == v
            && Fewer(InstalledView(prepared, me, temp) - {Private(me, Tmp)}, temp.snapshot.inode) == map[Target := temp]
  {
  }

  // ---- what a call keeps besides its accounts ----

  /** The rest of the world: what it does before a filesystem call and at a hook, and what throws. */
  datatype World = World(env: (nat, Fs) -> Fs, hook: (nat, Fs) -> Fs, faults: nat -> bool)

  /** How the world behaves towards a call; `lasting` are the other paths it neither binds nor unbinds. */
  datatype Regime = Regime(quiet: bool, hooksOnly: bool, faultless: bool, lasting: iset<Name>)

  datatype Origin = Origin(fs: Fs, own: Own)

  /** Inodes are not reused and the call's private names are left alone. */
  ghost predicate Lawful(me: Pid, w: World) {
    forall k, s | WellFormed(s) :: Rely(me, s, w.env(k, s)) && Rely(me, s, w.hook(k, s))
  }

  /** Nobody disturbs the target or the call's files; anything may throw. */
  ghost predicate QuietWorld(me: Pid, w: World) {
    forall k, s | WellFormed(s) ::
      && WellFormed(w.env(k, s)) && Apart(me, s, w.env(k, s))
      && WellFormed(w.hook(k, s)) && Apart(me, s, w.hook(k, s))
  }

  /** The world moves only at hooks. */
  ghost predicate HooksOnlyWorld(w: World) {
    forall k, s :: w.env(k, s) == s
  }

  ghost predicate FaultlessWorld(w: World) {
    forall k :: !w.faults(k)
  }

  ghost predicate Describes(me: Pid, w: World, r: Regime) {
    && Lawful(me, w)
    && r == RegimeOf(me, w)
  }

  ghost function RegimeOf(me: Pid, w: World): Regime {
    Regime(QuietWorld(me, w), HooksOnlyWorld(w), FaultlessWorld(w), iset n: Name | StaysPut(me, w, n))
  }

  /** Another path that exists after every move of the world exactly if it did before. */
  ghost predicate StaysPut(me: Pid, w: World, n: Name) {
    && n != Target && !Owned(n, me)
    && forall k, s | WellFormed(s) :: SameBinding(s, w.env(k, s), n) && SameBinding(s, w.hook(k, s), n)
  }

  predicate SameBinding(s: Fs, s': Fs, n: Name) {
    n in s'.names <==> n in s.names
  }

  /** Nothing thrown before moment `t`. */
  ghost predicate Smooth(w: World, t: nat) {
    forall c: nat | c < t :: !w.faults(c)
  }

  predicate Asked(n: nat, w: World) {
    true
  }

  /** `Describes`, spelled out only where `Ask` asks for it. */
  ghost predicate Ruled(me: Pid, w: World, r: Regime) {
    forall n: nat {:trigger Asked(n, w)} :: Asked(n, w) ==> Describes(me, w, r)
  }

  lemma Ask(me: Pid, w: World, r: Regime)
    requires Ruled(me, w, r)
    ensures Describes(me, w, r)
  {
    assert Asked(0, w);
  }

  /** What the call may rely on at moment `t`. */
  lemma Moves(me: Pid, w: World, r: Regime, t: nat, s: Fs)
    requires Ruled(me, w, r) && WellFormed(s)
    ensures var next := w.env(t, s);
            && Rely(me, s, next) && (r.quiet ==> Apart(me, s, next)) && (r.hooksOnly ==> next == s)
            && forall n <- r.lasting :: SameBinding(s, next, n)
    ensures var next := w.hook(t, s);
            Rely(me, s, next) && (r.quiet ==> Apart(me, s, next)) && forall n <- r.lasting :: SameBinding(s, next, n)
    ensures r.faultless ==> !w.faults(t)
  {
    Ask(me, w, r);
    assert forall n <- r.lasting :: StaysPut(me, w, n);
  }

  /** Where a call stands: its directory and record, the prepared temporary file and its view. */
  datatype Standing = Standing(fs: Fs, own: Own, filled: Option<Snapshot>, view: map<Name, Artifact>)

  /**
    The execution so far is a trace of legal moves; the lasting paths are as they were; if the world moves only at hooks, only the
    planned file and the call's own were taken off the target; and if nobody disturbs the call's
    files, the links of the temporary file are counted right and its prepared bytes stay.
   */
  ghost predicate Keeps(me: Pid, r: Regime, from: Origin, trace: seq<Moment>, s: Standing) {
    && Traced(me, from.fs, from.own, trace, s.fs, s.own)
    && WellFormed(s.fs) && s.view == View(s.fs, me)
    && (forall n <- r.lasting :: n != Target && !Owned(n, me) && SameBinding(from.fs, s.fs, n))
    && (r.hooksOnly ==> ExactlyOwn(s.own))
    && (r.quiet ==> Counted(s.fs, s.own))
    && (r.quiet && s.filled.Some? && Tmp !in s.own.erased ==>
          s.filled.value.inode in s.fs.files && SnapshotOf(s.fs, s.filled.value.inode) == s.filled.value)
  }

  predicate Opened(n: nat, trace: seq<Moment>, s: Standing) {
    true
  }

  /** `Keeps`, spelled out only where `Open` asks for it. */
  ghost predicate Kept(me: Pid, r: Regime, from: Origin, trace: seq<Moment>, s: Standing) {
    forall n: nat {:trigger Opened(n, trace, s)} :: Opened(n, trace, s) ==> Keeps(me, r, from, trace, s)
  }

  lemma Open(me: Pid, r: Regime, from: Origin, trace: seq<Moment>, s: Standing)
    requires Kept(me, r, from, trace, s)
    ensures Keeps(me, r, from, trace, s)
  {
    assert Opened(0, trace, s);
  }

  lemma Close(me: Pid, r: Regime, from: Origin, trace: seq<Moment>, s: Standing)
    requires Keeps(me, r, from, trace, s)
    ensures Kept(me, r, from, trace, s)
  {
  }

  /** A move of the world that the call can rely on. */
  lemma KeptByWorld(me: Pid, r: Regime, from: Origin, trace: seq<Moment>, s: Standing, next: Fs)
    requires Kept(me, r, from, trace, s) && WellFormed(s.fs) && Filed(s.fs, me, s.own)
    requires Rely(me, s.fs, next) && (r.quiet ==> Apart(me, s.fs, next))
    requires forall n <- r.lasting :: SameBinding(s.fs, next, n)
    requires s.filled.Some? ==> s.own.created == Some(s.filled.value.inode)
    ensures Kept(me, r, from, trace + [Moment(s.fs, s.own, None)], s.(fs := next, view := View(next, me)))
    ensures Filed(next, me, s.own)
    ensures r.quiet ==> View(next, me) == s.view
  {
    Audit(s.fs, me, s.own);
    Open(me, r, from, trace, s);
    RelyKeepsAccounts(me, s.fs, next, s.own);
    TraceGrows(me, from.fs, from.own, trace, Moment(s.fs, s.own, None), next, s.own);
    if r.quiet {
      ApartKeepsCounted(me, s.fs, next, s.own);
      if s.filled.Some? && Tmp !in s.own.erased { StillPrepared(s.fs, next, me, s.own); }
    }
    Close(me, r, from, trace + [Moment(s.fs, s.own, None)], s.(fs := next, view := View(next, me)));
  }

  /** The record after a step of the call itself. */
  lemma FiledByStep(fs: Fs, me: Pid, own: Own, e: Effect)
    requires WellFormed(fs) && Filed(fs, me, own) && Legal(own, e) && Enabled(fs, me, own.role, e)
    ensures var fs', own' := Apply(fs, me, own.role, e), Advance(own, e);
            && WellFormed(fs') && Coherent(own') && Filed(fs', me, own') && fs'.next >= fs.next
            && own'.expected == own.expected && (own.created.Some? ==> own'.created == own.created)
            && (own'.returned <==> own.returned || e.Return?)
  {
    Audit(fs, me, own);
    StepKeepsAccounts(fs, me, own, e);
  }

  /** A step of the call itself. */
  lemma KeptByStep(me: Pid, r: Regime, from: Origin, trace: seq<Moment>, s: Standing, e: Effect)
    requires Kept(me, r, from, trace, s) && WellFormed(s.fs) && Filed(s.fs, me, s.own)
    requires Legal(s.own, e) && Enabled(s.fs, me, s.own.role, e) && (e.Write? ==> s.filled.None?)
    requires r.hooksOnly && e.Capture? ==> s.own.expected == Some(e.inode)
    requires r.hooksOnly && e.Retract? ==> s.own.created == Some(e.inode)
    ensures ViewAllows(s.view, me, s.own.role, e)
    ensures Kept(me, r, from, trace + [Moment(s.fs, s.own, Some(e))],
                 Standing(Apply(s.fs, me, s.own.role, e), Advance(s.own, e), s.filled, ViewAfter(s.view, me, s.own.role, e)))
  {
    Audit(s.fs, me, s.own);
    Open(me, r, from, trace, s);
    var fs', own' := Apply(s.fs, me, s.own.role, e), Advance(s.own, e);
    StepKeepsAccounts(s.fs, me, s.own, e);
    ViewStep(s.fs, me, s.own, e);
    TraceGrows(me, from.fs, from.own, trace, Moment(s.fs, s.own, Some(e)), fs', own');
    if r.quiet { StepKeepsCounted(s.fs, me, s.own, e); }
    if r.hooksOnly { StepKeepsExactly(s.own, e); }
    StepKeepsBytes(s.fs, me, s.own, e, s.filled);
    StepKeepsLasting(s.fs, me, s.own.role, e, r.lasting);
    Close(me, r, from, trace + [Moment(s.fs, s.own, Some(e))], Standing(fs', own', s.filled, ViewAfter(s.view, me, s.own.role, e)));
  }

  lemma StepKeepsLasting(fs: Fs, me: Pid, role: Role, e: Effect, lasting: iset<Name>)
    requires Enabled(fs, me, role, e) && forall n <- lasting :: n != Target && !Owned(n, me)
    ensures forall n <- lasting :: SameBinding(fs, Apply(fs, me, role, e), n)
  {
    forall n <- lasting ensures SameBinding(fs, Apply(fs, me, role, e), n) { StepKeepsOthers(fs, me, role, e, n); }
  }

  /** A step binds and unbinds nothing but the target and the call's own names. */
  lemma StepKeepsOthers(fs: Fs, me: Pid, role: Role, e: Effect, n: Name)
    requires Enabled(fs, me, role, e) && n != Target && !Owned(n, me)
    ensures SameBinding(fs, Apply(fs, me, role, e), n)
  {
  }

  lemma StepKeepsExactly(own: Own, e: Effect)
    requires Legal(own, e) && (e.Capture? ==> own.expected == Some(e.inode)) && (e.Retract? ==> own.created == Some(e.inode))
    ensures ExactlyOwn(own) ==> ExactlyOwn(Advance(own, e))
  {
  }

  lemma StepKeepsBytes(fs: Fs, me: Pid, own: Own, e: Effect, filled: Option<Snapshot>)
    requires WellFormed(fs) && Enabled(fs, me, own.role, e) && (e.Write? ==> filled.None?)
    ensures filled.Some? && filled.value.inode in fs.files && SnapshotOf(fs, filled.value.inode) == filled.value ==>
              var fs' := Apply(fs, me, own.role, e);
              filled.value.inode in fs'.files && SnapshotOf(fs', filled.value.inode) == filled.value
  {
  }

  class Call {
    const me: Pid
    const world: World
    ghost const regime: Regime
    ghost const origin: Fs
    ghost const begun: Own
    var fs: Fs
    var own: Own
    var clock: nat
    var tempLinks: nat   // ConditionalInstallState.temporaryLinkCount
    ghost var trace: seq<Moment>
    ghost var view: map<Name, Artifact>  // what the call could see of the directory now
    ghost var filled: Option<Snapshot>   // the temporary file as prepared
    ghost var recountFailed: bool        // a recount of the temporary file's links threw
    ghost var stumbled: bool             // some filesystem call or hook threw

    /** Nobody disturbs the target or this call's files; anything may throw. */
    ghost predicate Quiet() {
      regime.quiet
    }

    /** Besides, no faults and no throwing hooks. */
    ghost predicate Undisturbed() {
      regime.quiet && regime.faultless
    }

    /** The world moves only at hooks. */
    ghost predicate HooksOnly() {
      regime.hooksOnly
    }

    /** Some path that must be absent is there throughout. */
    ghost predicate Blocked(absent: seq<Name>) {
      exists n <- absent :: n in regime.lasting && n in origin.names
    }

    /** Every path that must be absent is absent throughout. */
    ghost predicate Clear(absent: seq<Name>) {
      forall n <- absent :: n in regime.lasting && n !in origin.names
    }

    ghost predicate Valid()
      reads this
    {
      Stands() && !own.returned
    }

    /** The same, for a call that may have returned. */
    ghost predicate Stands()
      reads this
    {
      && Ruled(me, world, regime) && WellFormed(fs) && Coherent(own) && Filed(fs, me, own)
      && (own.expected.Some? ==> own.expected.value < fs.next)
      && (filled.Some? ==> own.created == Some(filled.value.inode))
      && Kept(me, regime, Origin(origin, begun), trace, Standing(fs, own, filled, view))
      && (!stumbled ==> Smooth(world, clock))
    }

    /** The counted links of the temporary file are its real ones, unless counting them again threw. */
    ghost predicate Tallied()
      reads this
    {
      Quiet() ==> recountFailed || tempLinks == CreatedLinks(own)
    }

    ghost function Seen(): map<Name, Artifact>
      reads this
    {
      view
    }

    constructor (me: Pid, world: World, fs: Fs, role: Role, expected: Option<Inode>)
      requires WellFormed(fs) && Lawful(me, world)
      requires forall n: Name :: Owned(n, me) ==> n !in fs.names
      requires expected.Some? ==> expected.value < fs.next
      ensures Valid() && tempLinks == 1 && filled == None && !recountFailed && !stumbled && trace == []
      ensures this.me == me && this.world == world
      ensures regime == RegimeOf(me, world)
      ensures this.fs == fs && own == Begin(role, expected) && origin == fs && begun == own && Seen() == View(fs, me)
    {
      this.me, this.world, this.fs := me, world, fs;
      this.regime := RegimeOf(me, world);
      this.own, this.clock, this.tempLinks := Begin(role, expected), 0, 1;
      this.origin, this.begun, this.trace := fs, Begin(role, expected), [];
      this.filled, this.recountFailed, this.stumbled, this.view := None, false, false, View(fs, me);
      new;
      forall k: Kind
        ensures NameAccounted(fs, me, own, k)
      {
        assert Owned(Private(me, k), me) && Owned(Disposal(me, k), me);
      }
    }

    // ---- interactions ----

    /** The rest of the world has moved to `next`. */
    method WorldMoves(next: Fs)
      requires Valid() && Rely(me, fs, next) && (Quiet() ==> Apart(me, fs, next))
      requires forall n <- regime.lasting :: SameBinding(fs, next, n)
      modifies this`fs, this`trace, this`view
      ensures Valid() && fs == next
      ensures Quiet() ==> Seen() == old(Seen())
    {
      Spelled();
      KeptByWorld(me, regime, Origin(origin, begun), trace, Standing(fs, own, filled, view), next);
      trace := trace + [Moment(fs, own, None)];
      view := View(next, me);
      fs := next;
    }

    /** The rest of the world moves; then the interaction itself may throw. */
    method Interact() returns (threw: bool)
      requires Valid()
      modifies this`fs, this`trace, this`view, this`clock, this`stumbled
      ensures Valid()
      ensures HooksOnly() ==> fs == old(fs)
      ensures Quiet() ==> Seen() == old(Seen())
      ensures Undisturbed() ==> !threw
      ensures stumbled == (old(stumbled) || threw)
      ensures clock == old(clock) + 1 && threw == world.faults(old(clock))
    {
      Moves(me, world, regime, clock, fs);
      threw := world.faults(clock);
      WorldMoves(world.env(clock, fs));
      stumbled := stumbled || threw;
      clock := clock + 1;
    }

    /** A hook runs; it may move the world and throw. */
    method Hook() returns (threw: bool)
      requires Valid()
      modifies this`fs, this`trace, this`view, this`clock, this`stumbled
      ensures Valid()
      ensures Quiet() ==> Seen() == old(Seen())
      ensures Undisturbed() ==> !threw
      ensures stumbled == (old(stumbled) || threw)
      ensures clock == old(clock) + 1 && threw == world.faults(old(clock))
    {
      Moves(me, world, regime, clock, fs);
      threw := world.faults(clock);
      WorldMoves(world.hook(clock, fs));
      stumbled := stumbled || threw;
      clock := clock + 1;
    }

    method Look(n: Name) returns (r: Reading)
      requires Valid()
      modifies this`fs, this`trace, this`view, this`clock, this`stumbled
      ensures Valid()
      ensures r.Read? ==> r.artifact == Observe(fs, n)
      ensures HooksOnly() ==> fs == old(fs)
      ensures Quiet() ==> Seen() == old(Seen())
      ensures Undisturbed() ==> r.Read?
      ensures Undisturbed() && (n == Target || Owned(n, me)) ==>
                r.artifact == if n in old(Seen()) then Some(old(Seen())[n]) else None
      ensures stumbled == (old(stumbled) || r.Unreadable?)
      ensures Undisturbed() && n in regime.lasting ==> (r.artifact.Some? <==> n in origin.names)
    {
      var threw := Interact();
      Spelled();
      if n in regime.lasting { Lasts(n); }
      r := if threw then Unreadable else Read(Observe(fs, n));
    }

    /** Carry out a step the directory and the protocol both allow now. */
    method Perform(e: Effect)
      requires Valid() && Legal(own, e) && Enabled(fs, me, own.role, e)
      requires HooksOnly() && e.Capture? ==> own.expected == Some(e.inode)
      requires HooksOnly() && e.Retract? ==> own.created == Some(e.inode)
      requires e.Write? ==> filled.None?
      modifies this`fs, this`trace, this`view, this`own
      ensures Stands() && (e != Return ==> Valid())
      ensures fs == Apply(old(fs), me, old(own.role), e) && own == Advance(old(own), e)
      ensures ViewAllows(old(Seen()), me, old(own.role), e)
      ensures Seen() == ViewAfter(old(Seen()), me, old(own.role), e)
    {
      FiledByStep(fs, me, own, e);
      KeptByStep(me, regime, Origin(origin, begun), trace, Standing(fs, own, filled, view), e);
      trace := trace + [Moment(fs, own, Some(e))];
      view := ViewAfter(view, me, own.role, e);
      fs := Apply(fs, me, own.role, e);
      own := Advance(own, e);
    }

    /** Record something the call has seen or decided; the directory stays as it is. */
    method Note(e: Effect)
      requires Valid() && Legal(own, e) && Enabled(fs, me, own.role, e)
      requires e.Settle? || e.Return? || e.Confirm? || e.Sight? || e.SeeFree? || e.SeeAlone?
      modifies this`fs, this`trace, this`view, this`own
      ensures Stands() && (e != Return ==> Valid())
      ensures fs == old(fs) && Seen() == old(Seen()) && own == Advance(old(own), e)
    {
      Perform(e);
    }

    lemma Accounted()
      requires Stands()
      ensures Accounts(fs, me, own)
    {
      Audit(fs, me, own);
    }

    lemma AccountedFor(k: Kind)
      requires Stands()
      ensures NameAccounted(fs, me, own, k)
    {
      Audit(fs, me, own);
    }

    /** What `Valid` keeps sealed. */
    lemma Spelled()
      requires Stands()
      ensures Traced(me, origin, begun, trace, fs, own) && Seen() == View(fs, me)
      ensures (HooksOnly() ==> ExactlyOwn(own)) && (Quiet() ==> Counted(fs, own))
      ensures Quiet() && filled.Some? && Tmp !in own.erased ==>
                filled.value.inode in fs.files && SnapshotOf(fs, filled.value.inode) == filled.value
    {
      Open(me, regime, Origin(origin, begun), trace, Standing(fs, own, filled, view));
    }

    lemma Lasts(n: Name)
      requires Stands() && n in regime.lasting
      ensures n in fs.names <==> n in origin.names
    {
      Open(me, regime, Origin(origin, begun), trace, Standing(fs, own, filled, view));
      assert SameBinding(origin, fs, n);
    }

    /** The view shows exactly the names it can show. */
    lemma NameShown(n: Name)
      requires Stands() && (n == Target || Owned(n, me))
      ensures n in Seen() <==> n in fs.names
      ensures n in Seen() ==> Some(Seen()[n]) == Observe(fs, n) && Seen()[n].snapshot.inode == fs.names[n]
    {
      Spelled();
    }

    /** The names of kind `k`, as the record predicts them. */
    lemma KindShown(k: Kind)
      requires Stands()
      ensures Private(me, k) in Seen() <==> Expects(own, k).0.Some?
      ensures Disposal(me, k) in Seen() <==> Expects(own, k).1.Some?
    {
      AccountedFor(k);
      NameShown(Private(me, k));
      NameShown(Disposal(me, k));
    }

    /** rename(target, .previous | .deleted) */
    method RenameAway() returns (r: Option<Cause>)
      requires Valid() && !own.confirmed && own.captured.None? && own.expected.Some? && !own.installed
      requires HooksOnly() ==> Lookup(fs, Target) == own.expected
      modifies this`fs, this`trace, this`view, this`clock, this`stumbled, this`own
      ensures Valid()
      ensures r.Some? ==> own == old(own)
      ensures r.None? ==> own.captured.Some? && own == old(own).(captured := own.captured)
      ensures Undisturbed() && Target in old(Seen()) ==>
                r.None? && own.captured == Some(old(Seen())[Target].snapshot.inode)
                && Seen() == (old(Seen()) - {Target})[Private(me, Quarantine(own.role)) := old(Seen())[Target]]
      ensures Undisturbed() && Target !in old(Seen()) ==>
                r == Some(if own.role.Writer? then TargetChanged else Io) && Seen() == old(Seen())
      ensures r.None? ==> stumbled == old(stumbled)
    {
      var threw := Interact();
      if threw { return Some(Io); }
      NameShown(Target);
      if Target !in fs.names {
        return Some(if own.role.Writer? then TargetChanged else Io);
      }
      Perform(Capture(fs.names[Target]));
      r := None;
    }

    /** rename(target, .rollback) */
    method RenameRollback() returns (ok: bool)
      requires Valid() && !own.confirmed && InPlace(own) && !own.settled
      requires HooksOnly() ==> Lookup(fs, Target) == own.created
      modifies this`fs, this`trace, this`view, this`clock, this`stumbled, this`own
      ensures Valid()
      ensures !ok ==> own == old(own)
      ensures ok ==> own.retracted.Some? && own == old(own).(retracted := own.retracted)
      ensures Undisturbed() && Target in old(Seen()) ==>
                ok && own.retracted == Some(old(Seen())[Target].snapshot.inode)
                && Seen() == (old(Seen()) - {Target})[Private(me, Rollback) := old(Seen())[Target]]
      ensures ok ==> stumbled == old(stumbled)
    {
      var threw := Interact();
      NameShown(Target);
      if threw || Target !in fs.names { return false; }
      Perform(Retract(fs.names[Target]));
      ok := true;
    }

    /** link(.tmp, target) */
    method LinkTemporary() returns (r: Option<Cause>)
      requires Valid() && !own.confirmed && own.created.Some? && !own.installed && Tmp !in own.disposed && !own.relinked
      requires own.expected.Some? ==> own.captured.Some?
      modifies this`fs, this`trace, this`view, this`clock, this`stumbled, this`own
      ensures Valid()
      ensures own == if r.None? then old(own).(installed := true) else old(own)
      ensures Undisturbed() && Target !in old(Seen()) && Private(me, Tmp) in old(Seen()) ==>
                r.None? && Seen() == More(old(Seen())[Target := old(Seen())[Private(me, Tmp)]], own.created.value)
      ensures r.None? ==> stumbled == old(stumbled)
      ensures HooksOnly() ==> fs.files == old(fs).files && forall n <- old(fs).names :: Lookup(fs, n) == Lookup(old(fs), n)
      ensures r.None? ==> Lookup(fs, Target) == own.created
    {
      var threw := Interact();
      if threw { return Some(Io); }
      NameShown(Target);
      if Target in fs.names {
        return Some(TargetChanged);
      }
      AccountedFor(Tmp);
      Perform(Install(own.created.value));
      r := None;
    }

    /** link(quarantine, target) */
    method LinkBack(q: Artifact) returns (ok: bool)
      requires Valid() && !own.confirmed && own.captured.Some? && own.captured == own.expected && !own.relinked && !InPlace(own)
      requires Quarantine(own.role) !in own.disposed
      requires HooksOnly() ==> Observe(fs, Private(me, Quarantine(own.role))) == Some(q)
      modifies this`fs, this`trace, this`view, this`clock, this`stumbled, this`own
      ensures Valid()
      ensures own == if ok then old(own).(relinked := true) else old(own)
      ensures Undisturbed() && Target !in old(Seen()) && Private(me, Quarantine(own.role)) in old(Seen()) ==>
                ok && Seen() == More(old(Seen())[Target := old(Seen())[Private(me, Quarantine(own.role))]],
                                     own.captured.value)
      ensures ok ==> stumbled == old(stumbled)
    {
      var threw := Interact();
      NameShown(Target);
      if threw || Target in fs.names { return false; }
      AccountedFor(Quarantine(own.role));
      Perform(Relink(own.captured.value));
      ok := true;
    }

    /** rename(private name, .cleanup) */
    method RenameToDisposal(k: Kind, i: Inode) returns (ok: bool)
      requires Valid() && MayErase(own, k, i) && k !in own.disposed
      modifies this`fs, this`trace, this`view, this`clock, this`stumbled, this`own
      ensures Valid()
      ensures own == if ok then old(own).(disposed := old(own.disposed) + {k}) else old(own)
      ensures Undisturbed() && Private(me, k) in old(Seen()) ==>
                ok && Seen() == (old(Seen()) - {Private(me, k)})[Disposal(me, k) := old(Seen())[Private(me, k)]]
      ensures ok ==> stumbled == old(stumbled)
    {
      var threw := Interact();
      if threw { return false; }
      AccountedFor(k);
      Perform(Dispose(k, i));
      ok := true;
    }

    /** unlink(.cleanup), of a file that still shows what was bound unless the world moved since */
    method UnlinkDisposal(k: Kind, expected: Artifact) returns (ok: bool)
      requires Valid() && MayErase(own, k, expected.snapshot.inode) && k in own.disposed && k !in own.erased
      requires HooksOnly() ==> Observe(fs, Disposal(me, k)) == Some(expected)
      modifies this`fs, this`trace, this`view, this`clock, this`stumbled, this`own
      ensures Valid()
      ensures own == if ok then old(own).(erased := old(own.erased) + {k}) else old(own)
      ensures Undisturbed() ==> ok && Seen() == Fewer(old(Seen()) - {Disposal(me, k)}, expected.snapshot.inode)
      ensures ok ==> stumbled == old(stumbled)
    {
      var threw := Interact();
      if threw { return false; }
      AccountedFor(k);
      Perform(Erase(k, expected.snapshot.inode));
      ok := true;
    }

    // ---- cleanup of one private artifact ----

    /** `bindOwnedCleanupFailure`: report a pathname only after seeing the exact file there. */
    method BindOwned(candidates: seq<(Name, Artifact)>) returns (failure: CleanupFailure)
      requires Valid()
      requires forall c <- candidates :: Owned(c.0, me)
      modifies this`fs, this`trace, this`view, this`clock, this`stumbled
      ensures Valid()
      ensures failure.path.Some? ==> failure.path.value in fs.names && Owned(failure.path.value, me)
      ensures failure.path.Some? ==> exists c <- candidates :: c.0 == failure.path.value && Shows(fs, c.0, c.1.snapshot)
      ensures Quiet() ==> Seen() == old(Seen())
      ensures Undisturbed() ==> failure.path == FirstBound(old(Seen()), candidates)
    {
      var i := 0;
      while i < |candidates|
        invariant 0 <= i <= |candidates|
        invariant Valid()
        invariant Quiet() ==> Seen() == old(Seen())
        invariant Undisturbed() ==> FirstBound(old(Seen()), candidates[i..]) == FirstBound(old(Seen()), candidates)
      {
        assert candidates[i..][0] == candidates[i] && candidates[i..][1..] == candidates[i + 1..];
        var current := Look(candidates[i].0);
        if current.Read? && current.artifact.Some?
           && current.artifact.value.snapshot == candidates[i].1.snapshot {
          assert candidates[i] in candidates;
          return CleanupFailure(Some(candidates[i].0));
        }
        i := i + 1;
      }
      failure := CleanupFailure(None);
    }

    /** `cleanupBoundArtifact`: move the exact bound artifact aside, check it again, unlink it. */
    method Cleanup(k: Kind, expected: Option<Artifact>) returns (failure: Option<CleanupFailure>)
      requires Valid() && InodeOf(own, k).Some? && k !in own.disposed
      requires expected.Some? && InodeOf(own, k) == Some(expected.value.snapshot.inode) ==>
                 MayErase(own, k, expected.value.snapshot.inode)
      modifies this`fs, this`trace, this`view, this`clock, this`stumbled, this`own
      ensures Valid()
      ensures OnlyDisposes(old(own), own, k)
      ensures failure.None? ==> k in own.erased
      ensures failure.Some? && failure.value.path.Some? ==>
                failure.value.path.value in {Private(me, k), Disposal(me, k)} && failure.value.path.value in fs.names
                && expected.Some? && Shows(fs, failure.value.path.value, expected.value.snapshot)
      ensures Undisturbed() && Private(me, k) in old(Seen()) && expected == Some(old(Seen())[Private(me, k)]) ==>
                failure.None?
                && Seen() == Fewer(old(Seen()) - {Private(me, k)}, expected.value.snapshot.inode)
      ensures Undisturbed() && Private(me, k) in old(Seen()) && expected != Some(old(Seen())[Private(me, k)]) ==>
                var bound := expected.Some? && expected.value.snapshot == old(Seen())[Private(me, k)].snapshot;
                Seen() == old(Seen()) && failure == Some(CleanupFailure(if bound then Some(Private(me, k)) else None))
      ensures failure.None? ==> stumbled == old(stumbled)
    {
      KindShown(k);
      if expected.None? {
        return Some(CleanupFailure(None));
      }
      var candidates := [(Disposal(me, k), expected.value), (Private(me, k), expected.value)];
      var done := TryCleanup(k, expected.value);
      if done {
        return None;
      }
      FirstOfTwo(Seen(), candidates[0], candidates[1]);
      var f := BindOwned(candidates);
      failure := Some(f);
    }

    /** The body of the try block of `cleanupBoundArtifact`; false stands for a throw. */
    method TryCleanup(k: Kind, expected: Artifact) returns (done: bool)
      requires Valid() && InodeOf(own, k).Some? && k !in own.disposed
      requires InodeOf(own, k) == Some(expected.snapshot.inode) ==> MayErase(own, k, expected.snapshot.inode)
      modifies this`fs, this`trace, this`view, this`clock, this`stumbled, this`own
      ensures Valid()
      ensures OnlyDisposes(old(own), own, k)
      ensures done ==> k in own.erased
      ensures Undisturbed() && Private(me, k) in old(Seen()) && expected == old(Seen())[Private(me, k)] ==>
                done && Seen() == Fewer(old(Seen()) - {Private(me, k)}, expected.snapshot.inode)
      ensures Undisturbed() && Private(me, k) in old(Seen()) && expected != old(Seen())[Private(me, k)] ==>
                !done && Seen() == old(Seen())
      ensures done ==> stumbled == old(stumbled)
    {
      KindShown(k);
      MovedThenGone(Seen(), Private(me, k), Disposal(me, k), expected);
      done := SetAside(k, expected);
      ghost var aside := own;
      if !done { return; }
      done := Discard(k, expected);
      AsideThenGone(old(own), aside, own, k);
    }

    /** First half: the bound artifact goes from its private name to the disposal name. */
    method SetAside(k: Kind, expected: Artifact) returns (done: bool)
      requires Valid() && InodeOf(own, k).Some? && k !in own.disposed
      requires InodeOf(own, k) == Some(expected.snapshot.inode) ==> MayErase(own, k, expected.snapshot.inode)
      modifies this`fs, this`trace, this`view, this`clock, this`stumbled, this`own
      ensures Valid()
      ensures own == old(own) || own == old(own).(disposed := old(own.disposed) + {k})
      ensures done ==> k in own.disposed && MayErase(own, k, expected.snapshot.inode)
      ensures Undisturbed() && Private(me, k) in old(Seen()) && expected == old(Seen())[Private(me, k)] ==>
                done && Seen() == (old(Seen()) - {Private(me, k)})[Disposal(me, k) := expected]
      ensures Undisturbed() && Private(me, k) in old(Seen()) && expected != old(Seen())[Private(me, k)] ==>
                !done && Seen() == old(Seen())
      ensures done ==> stumbled == old(stumbled)
    {
      var bound := BoundAndFree(k, expected);
      if !bound { return false; }
      done := RenameToDisposal(k, expected.snapshot.inode);
    }

    /** The private name holds the bound artifact and the disposal name is free. */
    method BoundAndFree(k: Kind, expected: Artifact) returns (ok: bool)
      requires Valid() && InodeOf(own, k).Some? && k !in own.disposed
      modifies this`fs, this`trace, this`view, this`clock, this`stumbled
      ensures Valid()
      ensures ok ==> InodeOf(own, k) == Some(expected.snapshot.inode)
      ensures Quiet() ==> Seen() == old(Seen())
      ensures Undisturbed() ==> ok == (Private(me, k) in old(Seen()) && old(Seen())[Private(me, k)] == expected)
      ensures ok ==> stumbled == old(stumbled)
    {
      KindShown(k);
      var r := Look(Private(me, k));
      if r != Read(Some(expected)) { return false; }
      AccountedFor(k);
      r := Look(Disposal(me, k));
      ok := r == Read(None);
    }

    /** Second half: check the disposal name around the hook, then unlink it. */
    method Discard(k: Kind, expected: Artifact) returns (done: bool)
      requires Valid() && MayErase(own, k, expected.snapshot.inode) && k in own.disposed && k !in own.erased
      modifies this`fs, this`trace, this`view, this`clock, this`stumbled, this`own
      ensures Valid()
      ensures own == old(own) || own == old(own).(erased := old(own.erased) + {k})
      ensures done ==> k in own.erased
      ensures Undisturbed() && Disposal(me, k) in old(Seen()) && expected == old(Seen())[Disposal(me, k)] ==>
                done && Seen() == Fewer(old(Seen()) - {Disposal(me, k)}, expected.snapshot.inode)
      ensures done ==> stumbled == old(stumbled)
    {
      var intact := IntactAroundHook(k, expected);
      if !intact { return false; }
      var unlinked := UnlinkDisposal(k, expected);
      if !unlinked { return false; }
      done := SeeGone(k);
    }

    method SeeGone(k: Kind) returns (ok: bool)
      requires Valid() && k in own.disposed && k in own.erased
      modifies this`fs, this`trace, this`view, this`clock, this`stumbled
      ensures Valid()
      ensures Quiet() ==> Seen() == old(Seen())
      ensures Undisturbed() ==> ok
      ensures ok ==> stumbled == old(stumbled)
    {
      KindShown(k);
      var r := Look(Disposal(me, k));
      ok := r == Read(None);
    }

    /** Check, `beforeCleanup`, check again. */
    method IntactAroundHook(k: Kind, expected: Artifact) returns (ok: bool)
      requires Valid() && k in own.disposed
      modifies this`fs, this`trace, this`view, this`clock, this`stumbled
      ensures Valid()
      ensures Quiet() ==> Seen() == old(Seen())
      ensures HooksOnly() && ok ==> Observe(fs, Disposal(me, k)) == Some(expected)
      ensures Undisturbed() ==>
                ok == (Disposal(me, k) in old(Seen()) && old(Seen())[Disposal(me, k)] == expected)
      ensures ok ==> stumbled == old(stumbled)
    {
      ok := DisposalIntact(k, expected);
      if !ok { return; }
      var threw := Hook();   // beforeCleanup
      if threw { return false; }
      ok := DisposalIntact(k, expected);
    }

    /** The disposal name still holds the bound artifact and the source name stays empty. */
    method DisposalIntact(k: Kind, expected: Artifact) returns (ok: bool)
      requires Valid() && k in own.disposed
      modifies this`fs, this`trace, this`view, this`clock, this`stumbled
      ensures Valid()
      ensures Quiet() ==> Seen() == old(Seen())
      ensures Undisturbed() ==>
                ok == (Disposal(me, k) in old(Seen()) && old(Seen())[Disposal(me, k)] == expected)
      ensures ok ==> stumbled == old(stumbled)
      ensures HooksOnly() && ok ==> Observe(fs, Disposal(me, k)) == Some(expected)
    {
      KindShown(k);
      var r := Look(Disposal(me, k));
      if r != Read(Some(expected)) { return false; }
      r := Look(Private(me, k));
      ok := r == Read(None);
    }

    ghost predicate Named(failures: seq<CleanupFailure>, ks: set<Kind>)
      reads this
    {
      NamedIn(fs, me, failures, ks)
    }

    // ---- putting the original back ----

    /** `restoreQuarantinedTarget` */
    method Restore(q: Artifact) returns (failures: seq<CleanupFailure>)
      requires Valid() && !own.confirmed && own.captured == Some(q.snapshot.inode) && own.expected == own.captured
      requires !own.relinked && !InPlace(own) && Quarantine(own.role) !in own.disposed
      modifies this`fs, this`trace, this`view, this`clock, this`stumbled, this`own
      ensures Valid()
      ensures OnlyDisposes(old(own).(relinked := own.relinked), own, Quarantine(own.role))
      ensures failures == [] ==> own.relinked && Quarantine(own.role) in own.erased
      ensures Named(failures, {Quarantine(own.role)})
      ensures Undisturbed() && Target !in old(Seen()) && Private(me, Quarantine(own.role)) in old(Seen())
              && old(Seen())[Private(me, Quarantine(own.role))] == q ==>
                failures == [] && Seen() == (old(Seen()) - {Private(me, Quarantine(own.role))})[Target := q]
      ensures failures == [] ==> Observe(fs, Target) == Some(q) && stumbled == old(stumbled)
    {
      var path := Private(me, Quarantine(own.role));
      var back := TryLinkBack(q);
      if back {
        var r := DropRestored(q);
        if r.Some? { return r.value; }
      }
      var f := BindOwned([(path, q), (path, q.(links := q.links + 1))]);
      failures := [f];
    }

    /** Up to and including the two checks after the link; false stands for a throw. */
    method TryLinkBack(q: Artifact) returns (ok: bool)
      requires Valid() && !own.confirmed && own.captured == Some(q.snapshot.inode) && own.expected == own.captured
      requires !own.relinked && !InPlace(own) && Quarantine(own.role) !in own.disposed
      modifies this`fs, this`trace, this`view, this`clock, this`stumbled, this`own
      ensures Valid()
      ensures own == old(own).(relinked := own.relinked)
      ensures ok ==> own.relinked
      ensures Undisturbed() && Target !in old(Seen()) && Private(me, Quarantine(own.role)) in old(Seen())
              && old(Seen())[Private(me, Quarantine(own.role))] == q ==>
                ok && Seen() == More(old(Seen())[Target := q], q.snapshot.inode)
      ensures ok ==> Observe(fs, Target) == Some(q.(links := q.links + 1)) && stumbled == old(stumbled)
    {
      ok := Moved(Quarantine(own.role), q);
      if !ok { return; }
      ok := LinkBack(q);
      if !ok { return; }
      ok := BothLinked(q.(links := q.links + 1));
    }

    /** The quarantine name and the target both show `linked`. */
    method BothLinked(linked: Artifact) returns (ok: bool)
      requires Valid()
      modifies this`fs, this`trace, this`view, this`clock, this`stumbled
      ensures Valid()
      ensures Undisturbed() ==> Seen() == old(Seen())
      ensures Undisturbed() && Target in old(Seen()) && old(Seen())[Target] == linked
              && Private(me, Quarantine(own.role)) in old(Seen())
              && old(Seen())[Private(me, Quarantine(own.role))] == linked ==>
                ok
      ensures ok ==> Observe(fs, Target) == Some(linked) && stumbled == old(stumbled)
      ensures HooksOnly() && ok ==> Observe(fs, Private(me, Quarantine(own.role))) == Some(linked)
    {
      var r := Look(Private(me, Quarantine(own.role)));
      if r != Read(Some(linked)) { return false; }
      r := Look(Target);
      ok := r == Read(Some(linked));
    }

    /** The rest of `restoreQuarantinedTarget`; None stands for a throw. */
    method DropRestored(q: Artifact) returns (failures: Option<seq<CleanupFailure>>)
      requires Valid() && own.captured == Some(q.snapshot.inode) && own.expected == own.captured
      requires own.relinked && Quarantine(own.role) !in own.disposed
      modifies this`fs, this`trace, this`view, this`clock, this`stumbled, this`own
      ensures Valid()
      ensures OnlyDisposes(old(own), own, Quarantine(own.role))
      ensures failures == Some([]) ==> Quarantine(own.role) in own.erased
      ensures failures.Some? ==> Named(failures.value, {Quarantine(own.role)})
      ensures forall v ::
                Undisturbed() && Target !in v && Private(me, Quarantine(own.role)) in v
                && v[Private(me, Quarantine(own.role))] == q
                && old(Seen()) == More(v[Target := q], q.snapshot.inode) ==>
                  failures == Some([]) && Seen() == (v - {Private(me, Quarantine(own.role))})[Target := q]
      ensures failures == Some([]) ==> Observe(fs, Target) == Some(q) && stumbled == old(stumbled)
    {
      var path := Private(me, Quarantine(own.role));
      forall v: map<Name, Artifact> {
        MoreThenFewer(v, path, Target, q);
      }
      var failure := Cleanup(Quarantine(own.role), Some(q.(links := q.links + 1)));
      if failure.Some? {
        return Some([failure.value]);
      }
      var r := Look(Target);
      failures := if r == Read(Some(q)) then Some([]) else None;
    }

    /** `throwAfterOriginalRestoreAttempt`: only seeing the expected snapshot at the target
        again makes the failure an ordinary one. */
    method Verdict(cause: Cause, failures: seq<CleanupFailure>, ghost ks: set<Kind>, expected: Snapshot)
      returns (outcome: Outcome)
      requires Valid() && !own.confirmed && own.expected == Some(expected.inode) && Named(failures, ks)
      modifies this`fs, this`trace, this`view, this`clock, this`stumbled, this`own
      ensures Valid()
      ensures own == old(own).(confirmed := own.confirmed)
      ensures outcome.Threw? && outcome.errorClass == (if own.confirmed then Uncommitted else CommittedUnlink)
      ensures failures <= outcome.failures && Named(outcome.failures, ks)
      ensures own.confirmed ==> Target in fs.names && SnapshotOf(fs, fs.names[Target]) == expected
      ensures Undisturbed() && Target in old(Seen()) && old(Seen())[Target].snapshot == expected ==>
                own.confirmed && outcome == Threw(Uncommitted, cause, failures) && Seen() == old(Seen())
      ensures !stumbled ==> outcome.failures == failures
      ensures !old(stumbled) && stumbled ==> outcome.failures == failures + [CleanupFailure(None)]
      ensures outcome.cause == cause
    {
      var readable := SeeExpected(expected);
      StillNamed(me, old(fs), old(own), fs, own, failures, ks);
      if !readable {
        return Threw(CommittedUnlink, cause, failures + [CleanupFailure(None)]);
      }
      outcome := Threw(if own.confirmed then Uncommitted else CommittedUnlink, cause, failures);
    }

    /** Look whether the expected snapshot is at the target again; false stands for a throw. */
    method SeeExpected(expected: Snapshot) returns (readable: bool)
      requires Valid() && !own.confirmed && own.expected == Some(expected.inode)
      modifies this`fs, this`trace, this`view, this`clock, this`stumbled, this`own
      ensures Valid() && own == old(own).(confirmed := own.confirmed)
      ensures !readable ==> !own.confirmed
      ensures own.confirmed ==> Target in fs.names && SnapshotOf(fs, fs.names[Target]) == expected
      ensures Quiet() ==> Seen() == old(Seen())
      ensures Undisturbed() && Target in old(Seen()) && old(Seen())[Target].snapshot == expected ==>
                readable && own.confirmed
      ensures stumbled == (old(stumbled) || !readable)
    {
      var r := Look(Target);
      if r.Unreadable? { return false; }
      readable := true;
      if r.artifact.Some? && r.artifact.value.snapshot == expected {
        NameShown(Target);
        Note(Confirm(expected.inode));
      }
    }

    // ---- taking the target away ----

    /** The planned read, the two checks around `beforeRename`, the quarantine rename and the
        checks after it: the part `conditionalInstall` and `unlinkRegularFileIfUnchanged` share. */
    method TakeTarget(expected: Snapshot) returns (r: Taking)
      requires Valid() && !own.confirmed && own.captured.None? && !own.installed && own.expected == Some(expected.inode)
      modifies this`fs, this`trace, this`view, this`clock, this`stumbled, this`own
      ensures Valid()
      ensures r.Taken? ==> r.planned.snapshot == expected && own == old(own).(captured := Some(expected.inode))
      ensures r.Refused? && r.outcome.Threw? && r.outcome.errorClass.Uncommitted? ==>
                own == old(own) && r.outcome.failures == []
      ensures r.Refused? ==> r.outcome.Threw? && (r.outcome.errorClass.Uncommitted? || r.outcome.errorClass.CommittedUnlink?)
      ensures r.Refused? && r.outcome.errorClass.CommittedUnlink? ==>
                own.captured.Some? && own == old(own).(captured := own.captured)
                && |r.outcome.failures| == 1 && Named(r.outcome.failures, {Quarantine(own.role)})
      ensures Undisturbed() && Target in old(Seen()) && old(Seen())[Target].snapshot == expected ==>
                r == Taken(old(Seen())[Target])
                && Seen() == (old(Seen()) - {Target})[Private(me, Quarantine(own.role)) := old(Seen())[Target]]
      ensures Undisturbed() && !(Target in old(Seen()) && old(Seen())[Target].snapshot == expected) ==>
                r == Refused(Threw(Uncommitted, TargetChanged, [])) && Seen() == old(Seen())
      ensures r.Taken? ==> stumbled == old(stumbled)
    {
      var path := Private(me, Quarantine(own.role));
      AccountedFor(Quarantine(own.role));
      var planned := Look(Target);
      if planned.Unreadable? { return Refused(Threw(Uncommitted, Io, [])); }
      if planned.artifact.None? || planned.artifact.value.snapshot != expected {
        return Refused(Threw(Uncommitted, TargetChanged, []));
      }
      var cause := RenameWhenUnchanged(planned.artifact.value);
      if cause.Some? { return Refused(Threw(Uncommitted, cause.value, [])); }
      r := CheckTaken(planned.artifact.value);
    }

    /** After the quarantine rename: the `afterRename` hook and the two checks behind it. */
    method CheckTaken(planned: Artifact) returns (r: Taking)
      requires Valid() && own.captured.Some? && Quarantine(own.role) !in own.disposed
      modifies this`fs, this`trace, this`view, this`clock, this`stumbled
      ensures Valid()
      ensures r.Taken? ==> r.planned == planned && own.captured == Some(planned.snapshot.inode)
      ensures r.Refused? ==> r.outcome.Threw? && r.outcome.errorClass.CommittedUnlink?
                             && |r.outcome.failures| == 1 && Named(r.outcome.failures, {Quarantine(own.role)})
      ensures Undisturbed() && Private(me, Quarantine(own.role)) in old(Seen()) && Target !in old(Seen())
              && old(Seen())[Private(me, Quarantine(own.role))] == planned ==>
                r.Taken? && Seen() == old(Seen())
      ensures r.Taken? ==> stumbled == old(stumbled)
      ensures r.Refused? ==> r.outcome.cause == if world.faults(old(clock)) then HookFailed else Integrity
    {
      var hookThrew := Hook();   // afterRename
      var verified := Moved(Quarantine(own.role), planned);
      if !verified || hookThrew {
        var f := BindOwned([(Private(me, Quarantine(own.role)), planned)]);
        return Refused(Threw(CommittedUnlink, if hookThrew then HookFailed else Integrity, [f]));
      }
      r := Taken(planned);
    }

    /** The private name of kind `k` holds exactly `expected` and the target is absent. */
    method Moved(k: Kind, expected: Artifact) returns (ok: bool)
      requires Valid() && k !in own.disposed
      modifies this`fs, this`trace, this`view, this`clock, this`stumbled
      ensures Valid()
      ensures ok ==> InodeOf(own, k) == Some(expected.snapshot.inode)
      ensures Undisturbed() ==> Seen() == old(Seen())
      ensures Undisturbed() ==>
                ok == (Private(me, k) in old(Seen()) && old(Seen())[Private(me, k)] == expected
                       && Target !in old(Seen()))
      ensures ok ==> stumbled == old(stumbled)
      ensures ok ==> Target !in fs.names
      ensures HooksOnly() ==> fs == old(fs)
      ensures HooksOnly() && ok ==> Observe(fs, Private(me, k)) == Some(expected)
    {
      var r := Look(Private(me, k));
      AccountedFor(k);
      if r != Read(Some(expected)) { return false; }
      r := Look(Target);
      ok := r == Read(None);
    }

    /** From the quarantine-name check to the quarantine rename. */
    method RenameWhenUnchanged(planned: Artifact) returns (cause: Option<Cause>)
      requires Valid() && !own.confirmed && own.captured.None? && !own.installed
      requires own.expected == Some(planned.snapshot.inode)
      modifies this`fs, this`trace, this`view, this`clock, this`stumbled, this`own
      ensures Valid()
      ensures cause.Some? ==> own == old(own)
      ensures cause.None? ==> own.captured.Some? && own == old(own).(captured := own.captured)
      ensures Undisturbed() && Target in old(Seen()) && old(Seen())[Target] == planned ==>
                cause.None?
                && Seen() == (old(Seen()) - {Target})[Private(me, Quarantine(own.role)) := planned]
      ensures cause.None? ==> stumbled == old(stumbled)
    {
      var path := Private(me, Quarantine(own.role));
      KindShown(Quarantine(own.role));
      var r := Look(path);
      if r != Read(None) { return Some(Integrity); }
      var hookThrew := Hook();   // beforeRename
      if hookThrew { return Some(HookFailed); }
      var again := Look(Target);
      if again != Read(Some(planned)) {
        return Some(if again.Unreadable? then Io else if own.role.Writer? then TargetChanged else Integrity);
      }
      r := Look(path);
      if r != Read(None) { return Some(Integrity); }
      cause := RenameAway();
    }

    // ---- taking the replacement back ----

    /** `conditionalUnlinkInstalled` */
    method TakeBack(linked: Artifact) returns (r: Retraction)
      requires Valid() && !own.confirmed && InPlace(own) && !own.settled && filled == Some(linked.snapshot)
      requires Tallied() && Tmp !in own.disposed
      modifies this`fs, this`trace, this`view, this`clock, this`stumbled, this`own, this`tempLinks, this`recountFailed
      ensures Valid() && Tallied()
      ensures r.NotTaken? ==> own == old(own)
      ensures !r.NotTaken? ==>
                own.retracted.Some? && OnlyDisposes(old(own).(retracted := own.retracted), own, Rollback)
                && Named(r.failures, {Rollback}) && (Left(own, Rollback) ==> r.failures != [])
      ensures Undisturbed() && Target in old(Seen()) && old(Seen())[Target] == linked ==>
                r == TookBack([]) && tempLinks == 1
                && Seen() == Fewer(old(Seen()) - {Target}, linked.snapshot.inode)
      ensures r == TookBack([]) ==> stumbled == old(stumbled)
    {
      ghost var v0 := Seen();
      KindShown(Rollback);
      var cause := RenameBackWhenUnchanged(linked);
      if cause.Some? { return NotTaken(cause.value); }
      var hookThrew := Hook();   // afterRename
      var verified := Moved(Rollback, linked);
      if !verified {
        var f := BindOwned([(Private(me, Rollback), linked)]);
        var failures := RecountTemporary(linked, [f]);
        return TookBackThrowing(if hookThrew then HookFailed else Integrity, failures);
      }
      if Target in v0 {
        assert v0 - {Target} == (v0 - {Target})[Private(me, Rollback) := v0[Target]] - {Private(me, Rollback)};
      }
      r := DropRollback(linked, hookThrew);
    }

    /** The end of `conditionalUnlinkInstalled`: clean the rollback name up and report. */
    method DropRollback(linked: Artifact, hookThrew: bool) returns (r: Retraction)
      requires Valid() && own.retracted == Some(linked.snapshot.inode) && own.created == own.retracted
      requires Rollback !in own.disposed && Tmp !in own.disposed && own.installed && filled == Some(linked.snapshot) && Tallied()
      modifies this`fs, this`trace, this`view, this`clock, this`stumbled, this`own, this`tempLinks, this`recountFailed
      ensures Valid() && Tallied() && !r.NotTaken?
      ensures OnlyDisposes(old(own), own, Rollback)
      ensures Named(r.failures, {Rollback}) && (Left(own, Rollback) ==> r.failures != [])
      ensures Undisturbed() && !hookThrew && Private(me, Rollback) in old(Seen())
              && old(Seen())[Private(me, Rollback)] == linked ==>
                r == TookBack([]) && tempLinks == 1
                && Seen() == Fewer(old(Seen()) - {Private(me, Rollback)}, linked.snapshot.inode)
      ensures r == TookBack([]) ==> stumbled == old(stumbled)
      ensures hookThrew ==> r.TookBackThrowing?
    {
      var failure := Cleanup(Rollback, Some(linked));
      var failures := [];
      if failure.None? {
        tempLinks := 1;
      } else {
        failures := RecountTemporary(linked, [failure.value]);
      }
      ghost var fs1 := fs;
      var threw := Interact();   // the parent directory is checked once more
      StillNamed(me, fs1, own, fs, own, failures, {Rollback});
      r := if threw || hookThrew then TookBackThrowing(if threw then Io else HookFailed, failures)
           else TookBack(failures);
    }

    method RenameBackWhenUnchanged(linked: Artifact) returns (cause: Option<Cause>)
      requires Valid() && !own.confirmed && InPlace(own) && !own.settled && own.created == Some(linked.snapshot.inode)
      modifies this`fs, this`trace, this`view, this`clock, this`stumbled, this`own
      ensures Valid()
      ensures cause.Some? ==> own == old(own)
      ensures cause.None? ==> own.retracted.Some? && own == old(own).(retracted := own.retracted)
      ensures Undisturbed() && Target in old(Seen()) && old(Seen())[Target] == linked ==>
                cause.None? && Seen() == (old(Seen()) - {Target})[Private(me, Rollback) := linked]
      ensures cause.None? ==> stumbled == old(stumbled)
      ensures HooksOnly() && cause.None? ==> Observe(old(fs), Target) == Some(linked)
    {
      KindShown(Rollback);
      var r := Look(Target);
      if r != Read(Some(linked)) { return Some(Integrity); }
      r := Look(Private(me, Rollback));
      if r != Read(None) { return Some(Integrity); }
      var hookThrew := Hook();   // beforeRename
      if hookThrew { return Some(HookFailed); }
      r := Look(Target);
      if r != Read(Some(linked)) { return Some(Integrity); }
      r := Look(Private(me, Rollback));
      if r != Read(None) { return Some(Integrity); }
      var ok := RenameRollback();
      cause := if ok then None else Some(Io);
    }

    /** Read the temporary file's link count again, so that its own cleanup expects the right one. */
    method RecountTemporary(linked: Artifact, failures: seq<CleanupFailure>) returns (extended: seq<CleanupFailure>)
      requires Valid() && Named(failures, {Rollback}) && filled == Some(linked.snapshot) && Tmp !in own.disposed
      modifies this`fs, this`trace, this`view, this`clock, this`stumbled, this`tempLinks, this`recountFailed
      ensures Valid() && Tallied()
      ensures failures <= extended && Named(extended, {Rollback})
      ensures !recountFailed ==>
                var now := Observe(fs, Private(me, Tmp));
                tempLinks == if now.Some? && now.value.snapshot == linked.snapshot then now.value.links else old(tempLinks)
      ensures recountFailed && !old(recountFailed) ==> |extended| == |failures| + 1 && tempLinks == old(tempLinks)
    {
      var current := Look(Private(me, Tmp));
      StillNamed(me, old(fs), old(own), fs, own, failures, {Rollback});
      if current.Unreadable? {
        recountFailed := true;
        return failures + [CleanupFailure(None)];
      }
      AccountedFor(Tmp);
      Spelled();
      if current.artifact.Some? && current.artifact.value.snapshot == linked.snapshot {
        tempLinks := current.artifact.value.links;
      }
      extended := failures;
    }

    // ---- conditional installation ----

    /** `assertFileExpectation` */
    method AssertExpectation(x: Expectation) returns (cause: Option<Cause>)
      requires Valid()
      modifies this`fs, this`trace, this`view, this`clock, this`stumbled
      ensures Valid()
      ensures Undisturbed() ==> Seen() == old(Seen())
      ensures Undisturbed() && SnapshotIn(old(Seen())) != x.expected ==> cause == Some(TargetChanged)
      ensures Undisturbed() && SnapshotIn(old(Seen())) == x.expected ==>
                cause.None? || (cause == Some(AlternateAppeared) && !Clear(x.absent))
      ensures Undisturbed() && (Blocked(x.absent) || (Target in x.absent && Target in old(Seen()))) ==> cause.Some?
      ensures cause.None? ==> stumbled == old(stumbled)
      ensures HooksOnly() ==> fs == old(fs)
      ensures HooksOnly() && cause.None? ==> AsExpected(fs, x)
    {
      var r := Look(Target);
      if r.Unreadable? { return Some(Io); }
      if (if r.artifact.Some? then Some(r.artifact.value.snapshot) else None) != x.expected {
        return Some(TargetChanged);
      }
      var i := 0;
      while i < |x.absent|
        invariant 0 <= i <= |x.absent|
        invariant Valid() && stumbled == old(stumbled) && (HooksOnly() ==> fs == old(fs) && forall j | 0 <= j < i :: x.absent[j] !in fs.names)
        invariant Undisturbed() ==> Seen() == old(Seen()) && forall j | 0 <= j < i :: Passable(x.absent[j], old(Seen()))
      {
        assert x.absent[i] in x.absent;
        var alternate := Look(x.absent[i]);
        if alternate.Unreadable? { return Some(Io); }
        if alternate.artifact.Some? { return Some(AlternateAppeared); }
        i := i + 1;
      }
      cause := None;
    }

    /** Nothing says that the path exists. */
    ghost predicate Passable(n: Name, v: map<Name, Artifact>) {
      !(n in regime.lasting && n in origin.names) && !(n == Target && Target in v)
    }

    /** The loop over the paths that must have stayed absent, after the link or the capture: each
        one seen to be free is recorded. */
    method SeeAlternates(absent: seq<Name>) returns (cause: Option<Cause>)
      requires Valid() && !own.settled
      requires if own.role.Writer? then InPlace(own) && |own.validations| >= 2
               else own.captured.Some? && own.captured == own.expected && !own.relinked
      modifies this`fs, this`trace, this`view, this`clock, this`stumbled, this`own
      ensures Valid() && own == old(own).(cleared := own.cleared)
      ensures cause.None? || cause == Some(Io) || cause == Some(AlternateAppeared)
      ensures cause.None? ==> own.cleared == old(own.cleared) + absent && stumbled == old(stumbled)
      ensures Quiet() ==> Seen() == old(Seen())
      ensures Undisturbed() ==> cause.None? || (cause == Some(AlternateAppeared) && !Clear(absent))
      ensures Undisturbed() && (Blocked(absent) || (Target in absent && Target in old(Seen()))) ==> cause.Some?
      ensures cause == Some(AlternateAppeared) ==> exists n <- absent :: n in fs.names
    {
      var i := 0;
      while i < |absent|
        invariant 0 <= i <= |absent|
        invariant Valid() && stumbled == old(stumbled)
        invariant own == old(own).(cleared := old(own.cleared) + absent[..i])
        invariant Quiet() ==> Seen() == old(Seen())
        invariant Undisturbed() ==> forall j | 0 <= j < i :: Passable(absent[j], old(Seen()))
      {
        assert absent[i] in absent;
        var alternate := Look(absent[i]);
        if alternate.Unreadable? { return Some(Io); }
        if alternate.artifact.Some? { return Some(AlternateAppeared); }
        Note(SeeFree(absent[i]));
        assert absent[..i + 1] == absent[..i] + [absent[i]];
        i := i + 1;
      }
      assert absent[..i] == absent;
      cause := None;
    }

    /** `validatePreInstall` */
    method ValidatePreInstall(temp: Artifact, q: Option<Artifact>) returns (cause: Option<Cause>)
      requires Valid()
      modifies this`fs, this`trace, this`view, this`clock, this`stumbled
      ensures Valid()
      ensures Quiet() ==> Seen() == old(Seen())
      ensures Undisturbed() && Target !in old(Seen()) && old(QuarantineSeen(q))
              && Private(me, Tmp) in old(Seen()) && old(Seen())[Private(me, Tmp)] == temp ==>
                cause.None?
      ensures cause.None? ==> stumbled == old(stumbled)
      ensures HooksOnly() ==> fs == old(fs)
      ensures HooksOnly() && cause.None? ==>
                Observe(fs, Private(me, Tmp)) == Some(temp) && (q.Some? ==> Observe(fs, Private(me, Quarantine(own.role))) == q)
      ensures cause == Some(TargetChanged) ==> q.None?
    {
      var ready := SeeTemporary(temp);
      if !ready { return Some(Integrity); }
      var r := Look(Target);
      if r != Read(None) { return Some(if q.None? then TargetChanged else Integrity); }
      var kept := SeeQuarantined(q);
      cause := if kept then None else Some(Integrity);
    }

    /** `validateInstalled`, which records what it saw at the target. */
    method ValidateOnce(linked: Artifact, q: Option<Artifact>) returns (cause: Option<Cause>)
      requires Valid() && own.role.Writer? && InPlace(own) && !own.settled
      requires own.created == Some(linked.snapshot.inode) && linked.links == 2
      modifies this`fs, this`trace, this`view, this`clock, this`stumbled, this`own
      ensures Valid()
      ensures own == old(own).(validations := own.validations)
      ensures cause.None? ==> own.validations == old(own).validations + [FileOf(linked)] && stumbled == old(stumbled)
      ensures cause.None? || cause == Some(Integrity)
      ensures Quiet() ==> Seen() == old(Seen())
      ensures Undisturbed() && old(QuarantineSeen(q)) && Target in old(Seen()) && old(Seen())[Target] == linked
              && Private(me, Tmp) in old(Seen()) && old(Seen())[Private(me, Tmp)] == linked ==>
                cause.None?
    {
      var ready := SeeTemporary(linked);
      if !ready { return Some(Integrity); }
      var shown := SeeTarget(linked);
      if !shown { return Some(Integrity); }
      var kept := SeeQuarantined(q);
      cause := if kept then None else Some(Integrity);
    }

    method SeeTemporary(temp: Artifact) returns (ok: bool)
      requires Valid()
      modifies this`fs, this`trace, this`view, this`clock, this`stumbled
      ensures Valid()
      ensures HooksOnly() ==> fs == old(fs)
      ensures HooksOnly() && ok ==> Observe(fs, Private(me, Tmp)) == Some(temp)
      ensures Quiet() ==> Seen() == old(Seen())
      ensures Undisturbed() ==> (ok <==> Private(me, Tmp) in old(Seen()) && old(Seen())[Private(me, Tmp)] == temp)
      ensures ok ==> stumbled == old(stumbled)
    {
      var r := Look(Private(me, Tmp));
      ok := r == Read(Some(temp));
    }

    /** Look whether the quarantined original, if there is one, is unchanged. */
    method SeeQuarantined(q: Option<Artifact>) returns (ok: bool)
      requires Valid()
      modifies this`fs, this`trace, this`view, this`clock, this`stumbled
      ensures Valid()
      ensures HooksOnly() ==> fs == old(fs)
      ensures HooksOnly() && ok && q.Some? ==> Observe(fs, Private(me, Quarantine(own.role))) == q
      ensures Quiet() ==> Seen() == old(Seen())
      ensures Undisturbed() ==> (ok <==> old(QuarantineSeen(q)))
      ensures ok ==> stumbled == old(stumbled)
    {
      ok := true;
      if q.Some? {
        var r := Look(Private(me, Quarantine(own.role)));
        ok := r == Read(q);
      }
    }

    /** Look whether the target shows the installed file, and record the sight. */
    method SeeTarget(linked: Artifact) returns (ok: bool)
      requires Valid() && own.role.Writer? && InPlace(own) && !own.settled
      requires own.created == Some(linked.snapshot.inode) && linked.links == 2
      modifies this`fs, this`trace, this`view, this`clock, this`stumbled, this`own
      ensures Valid() && own == old(own).(validations := own.validations)
      ensures own.validations == old(own).validations + if ok then [FileOf(linked)] else []
      ensures Quiet() ==> Seen() == old(Seen())
      ensures Undisturbed() ==> (ok <==> Target in old(Seen()) && old(Seen())[Target] == linked)
      ensures ok ==> stumbled == old(stumbled)
    {
      var r := Look(Target);
      ok := r == Read(Some(linked));
      if ok {
        Note(Sight(linked.snapshot.inode, FileOf(linked)));
      }
    }

    /** The original file, as quarantined by this call, when there was one. */
    ghost predicate Quarantined(q: Option<Artifact>, x: Expectation)
      reads this
    {
      && own.expected == IdentityOf(x.expected)
      && own.captured == own.expected
      && (if q.Some? then x.expected == Some(q.value.snapshot) else x.expected.None?)
      && !own.relinked && !own.confirmed
      && own.disposed == {}
    }

    ghost predicate QuarantineSeen(q: Option<Artifact>)
      reads this
    {
      q.Some? ==> Private(me, Quarantine(own.role)) in Seen() && Seen()[Private(me, Quarantine(own.role))] == q.value
    }

    /** Check, hook, check again, link. */
    method InstallLink(temp: Artifact, q: Option<Artifact>) returns (cause: Option<Cause>)
      requires Valid() && !own.confirmed && own.created == Some(temp.snapshot.inode) && !own.installed
      requires own.disposed == {} && !own.relinked && (own.expected.Some? ==> own.captured.Some?)
      modifies this`fs, this`trace, this`view, this`clock, this`stumbled, this`own
      ensures Valid()
      ensures own == if cause.None? then old(own).(installed := true) else old(own)
      ensures Undisturbed() && old(QuarantineSeen(q)) && Target !in old(Seen())
              && Private(me, Tmp) in old(Seen()) && old(Seen())[Private(me, Tmp)] == temp ==>
                cause.None? && Seen() == More(old(Seen())[Target := temp], temp.snapshot.inode)
      ensures cause.None? ==> stumbled == old(stumbled)
      ensures HooksOnly() && cause.None? ==>
                Shows(fs, Target, temp.snapshot) && (q.Some? ==> Shows(fs, Private(me, Quarantine(own.role)), q.value.snapshot))
    {
      cause := ValidatePreInstall(temp, q);
      if cause.Some? { return; }
      var threw := Hook();   // beforeLink
      if threw { return Some(HookFailed); }
      cause := ValidatePreInstall(temp, q);
      if cause.Some? { return; }
      cause := LinkTemporary();
    }

    /** What every failing path without an installed file ends with: put the original back if
        there is one, then decide how to report it. */
    method GiveUp(cause: Cause, earlier: seq<CleanupFailure>, q: Option<Artifact>, x: Expectation)
      returns (outcome: Outcome)
      requires Valid() && own.role.Writer? && own.expected == IdentityOf(x.expected) && own.captured == own.expected
      requires if q.Some? then x.expected == Some(q.value.snapshot) else x.expected.None?
      requires !own.relinked && !own.confirmed && !InPlace(own) && Previous !in own.disposed
      requires Named(earlier, {Rollback})
      modifies this`fs, this`trace, this`view, this`clock, this`stumbled, this`own
      ensures Valid()
      ensures OnlyDisposes(old(own).(relinked := own.relinked, confirmed := own.confirmed), own, Previous)
      ensures outcome.Threw? && earlier <= outcome.failures && Named(outcome.failures, {Previous, Rollback})
      ensures outcome.errorClass == if q.None? || own.confirmed then Uncommitted else CommittedUnlink
      ensures Left(own, Previous) ==> outcome.failures != []
      ensures Undisturbed() && old(QuarantineSeen(q)) && Target !in old(Seen()) ==>
                outcome == Threw(Uncommitted, cause, earlier)
                && Seen() == if q.None? then old(Seen())
                             else (old(Seen()) - {Private(me, Previous)})[Target := q.value]
    {
      if q.None? {
        return Threw(Uncommitted, cause, earlier);
      }
      var failures := Restore(q.value);
      StillNamed(me, old(fs), old(own), fs, own, earlier, {Rollback});
      outcome := Verdict(cause, earlier + failures, {Previous, Rollback}, q.value.snapshot);
    }

    /** The error path after a committed link: report where the displaced original is. */
    method CommittedFailure(cause: Cause, q: Option<Artifact>) returns (outcome: Outcome)
      requires Valid()
      modifies this`fs, this`trace, this`view, this`clock, this`stumbled
      ensures Valid()
      ensures outcome.Threw? && outcome.errorClass == CommittedMutation
      ensures (q.Some? ==> outcome.failures != []) && Named(outcome.failures, {Quarantine(own.role)})
    {
      if q.None? {
        return Threw(CommittedMutation, cause, []);
      }
      var f := BindOwned([(Private(me, Quarantine(own.role)), q.value)]);
      outcome := Threw(CommittedMutation, cause, [f]);
    }

    /** An alternate path appeared after the link: take the new file back, put the old one back. */
    method AlternateConflict(linked: Artifact, q: Option<Artifact>, x: Expectation) returns (outcome: Outcome)
      requires Valid() && own.role.Writer? && InPlace(own) && !own.settled && Quarantined(q, x)
      requires filled == Some(linked.snapshot) && Tallied()
      requires exists n <- x.absent :: n in fs.names
      modifies this`fs, this`trace, this`view, this`clock, this`stumbled, this`own, this`tempLinks, this`recountFailed
      ensures Valid()
      ensures own.created == old(own.created) && Tmp !in own.disposed && own.role.Writer?
      ensures Truthful(own, outcome) && !outcome.Returned? && Tallied()
      ensures Left(own, Previous) || Left(own, Rollback) ==> outcome.failures != []
      ensures Named(outcome.failures, {Previous, Rollback})
      ensures Undisturbed() && old(QuarantineSeen(q)) && Target in old(Seen()) && old(Seen())[Target] == linked ==>
                outcome == Threw(Uncommitted, AlternateAppeared, []) && tempLinks == 1
                && Seen() == var v := Fewer(old(Seen()) - {Target}, linked.snapshot.inode);
                             if q.None? then v else (v - {Private(me, Previous)})[Target := q.value]
    {
      if q.Some? {
        FewerKeeps(Seen(), Target, linked.snapshot.inode, Private(me, Previous));
      }
      var r := TakeBack(linked);
      if r.NotTaken? {
        outcome := CommittedFailure(r.cause, q);
        return;
      }
      var cause := if r.TookBackThrowing? then r.cause else AlternateAppeared;
      outcome := GiveUp(cause, r.failures, q, x);
    }

    /** From the fulfilled link to the end of `conditionalInstall`. */
    method AfterInstall(temp: Artifact, q: Option<Artifact>, x: Expectation) returns (outcome: Outcome)
      requires Valid() && own.role.Writer? && InPlace(own) && !own.settled && Quarantined(q, x)
      requires own.validations == [] && own.cleared == [] && filled == Some(temp.snapshot) && Tallied()
      modifies this`fs, this`trace, this`view, this`clock, this`stumbled, this`own, this`tempLinks, this`recountFailed
      ensures Valid()
      ensures own.created == old(own.created) && Tmp !in own.disposed && own.role.Writer?
      ensures Truthful(own, outcome) && Tallied()
      ensures outcome.Returned? ==> own.validations == [FileOf(temp), FileOf(temp)]
      ensures Left(own, Previous) || Left(own, Rollback) ==> outcome.failures != []
      ensures Named(outcome.failures, {Previous, Rollback})
      ensures Undisturbed() && old(QuarantineSeen(q)) && old(tempLinks) == 2
              && Target in old(Seen()) && old(Seen())[Target] == temp.(links := 2)
              && Private(me, Tmp) in old(Seen()) && old(Seen())[Private(me, Tmp)] == temp.(links := 2) ==>
                || (outcome == Returned([]) && tempLinks == 2 && !Blocked(x.absent) && Target !in x.absent
                    && Seen() == if q.None? then old(Seen())
                                 else Fewer(old(Seen()) - {Private(me, Previous)}, q.value.snapshot.inode))
                || (outcome == Threw(Uncommitted, AlternateAppeared, []) && tempLinks == 1 && !Clear(x.absent)
                    && Seen() == var v := Fewer(old(Seen()) - {Target}, temp.snapshot.inode);
                                 if q.None? then v else (v - {Private(me, Previous)})[Target := q.value])
      ensures outcome == Returned([]) ==> stumbled == old(stumbled)
      ensures outcome.Returned? ==> own.cleared == x.absent
    {
      var linked := temp.(links := 2);
      var cause := ValidateInstalled(linked, q);
      if cause.Some? {
        outcome := CommittedFailure(cause.value, q);
        return;
      }
      cause := SeeAlternates(x.absent);
      if cause == Some(Io) {
        outcome := CommittedFailure(Io, q);
      } else if cause.Some? {
        outcome := AlternateConflict(linked, q, x);
      } else {
        outcome := DropOriginal(q, x);
      }
    }

    /** Hook, check, hook, check. */
    method ValidateInstalled(linked: Artifact, q: Option<Artifact>) returns (cause: Option<Cause>)
      requires Valid() && own.role.Writer? && InPlace(own) && !own.settled
      requires own.created == Some(linked.snapshot.inode) && linked.links == 2
      modifies this`fs, this`trace, this`view, this`clock, this`stumbled, this`own
      ensures Valid()
      ensures own == old(own).(validations := own.validations)
      ensures cause.None? ==> own.validations == old(own).validations + [FileOf(linked), FileOf(linked)]
      ensures Quiet() ==> Seen() == old(Seen())
      ensures Undisturbed() && old(QuarantineSeen(q))
              && Target in old(Seen()) && old(Seen())[Target] == linked
              && Private(me, Tmp) in old(Seen()) && old(Seen())[Private(me, Tmp)] == linked ==>
                cause.None?
      ensures cause.None? ==> stumbled == old(stumbled)
    {
      var threw := Hook();   // afterLink
      if threw { return Some(HookFailed); }
      cause := ValidateOnce(linked, q);
      if cause.Some? { return; }
      threw := Hook();       // afterInstall
      if threw { return Some(HookFailed); }
      cause := ValidateOnce(linked, q);
    }

    /** The replacement stands: throw the original away. */
    method DropOriginal(q: Option<Artifact>, x: Expectation) returns (outcome: Outcome)
      requires Valid() && own.role.Writer? && InPlace(own) && Quarantined(q, x) && |own.validations| >= 2
      modifies this`fs, this`trace, this`view, this`clock, this`stumbled, this`own
      ensures Valid()
      ensures OnlyDisposes(old(own).(settled := true), own, Previous)
      ensures Truthful(own, outcome)
      ensures Left(own, Previous) ==> outcome.failures != []
      ensures Named(outcome.failures, {Previous})
      ensures Undisturbed() && old(QuarantineSeen(q)) ==>
                outcome == Returned([])
                && Seen() == if q.None? then old(Seen())
                             else Fewer(old(Seen()) - {Private(me, Previous)}, q.value.snapshot.inode)
      ensures outcome == Returned([]) ==> stumbled == old(stumbled)
    {
      Note(Settle);
      var failures := [];
      if q.Some? {
        var failure := Cleanup(Previous, q);
        if failure.Some? { failures := [failure.value]; }
      }
      ghost var fs1 := fs;
      var threw := Interact();   // the parent directory is checked once more
      StillNamed(me, fs1, own, fs, own, failures, {Previous});
      outcome := if threw then Threw(CommittedMutation, Io, failures) else Returned(failures);
    }

    /** `conditionalInstall` */
    method ConditionalInstall(temp: Artifact, x: Expectation) returns (outcome: Outcome)
      requires Valid() && tempLinks == 1 && filled == Some(temp.snapshot)
      requires own == Begin(Writer, IdentityOf(x.expected)).(created := Some(temp.snapshot.inode))
      modifies this`fs, this`trace, this`view, this`clock, this`stumbled, this`own, this`tempLinks, this`recountFailed
      ensures Valid()
      ensures own.created == old(own.created) && Tmp !in own.disposed && own.role.Writer?
      ensures Truthful(own, outcome) && Tallied()
      ensures outcome.Returned? ==> own.validations == [FileOf(temp), FileOf(temp)]
      ensures Left(own, Previous) || Left(own, Rollback) ==> outcome.failures != []
      ensures Named(outcome.failures, {Previous, Rollback})
      ensures Undisturbed() && temp.links == 1
              && Private(me, Tmp) in old(Seen()) && old(Seen())[Private(me, Tmp)] == temp ==>
                if SnapshotIn(old(Seen())) != x.expected then
                  outcome == Threw(Uncommitted, TargetChanged, []) && Seen() == old(Seen()) && tempLinks == 1
                else
                  || (outcome == Returned([]) && Seen() == InstalledView(old(Seen()), me, temp) && tempLinks == 2
                      && !Blocked(x.absent) && Target !in x.absent)
                  || (outcome == Threw(Uncommitted, AlternateAppeared, []) && !Clear(x.absent)
                      && Seen() == old(Seen()) && tempLinks == 1)
      ensures outcome == Returned([]) ==> stumbled == old(stumbled)
      ensures outcome.Returned? ==> own.cleared == x.absent
      ensures Undisturbed() && Blocked(x.absent) ==> own.captured.None? && !own.installed
    {
      ghost var v := Seen();
      Spelled();
      SeesOnly(fs, me, own);
      var threw := Interact();
      if threw { return Threw(Uncommitted, Io, []); }
      var cause := AssertExpectation(x);
      if cause.Some? { return Threw(Uncommitted, cause.value, []); }
      var q := None;
      if x.expected.Some? {
        var taking := TakeIntact(x.expected.value, x);
        if taking.Refused? { return taking.outcome; }
        q := Some(taking.planned);
      }
      outcome := InstallTaken(temp, q, x, v);
    }

    /** The first half: the target is quarantined and still intact after `afterQuarantine`. */
    method TakeIntact(expected: Snapshot, x: Expectation) returns (r: Taking)
      requires Valid() && Tallied() && x.expected == Some(expected) && own.created.Some?
      requires own == Begin(Writer, Some(expected.inode)).(created := own.created)
      modifies this`fs, this`trace, this`view, this`clock, this`stumbled, this`own
      ensures Valid() && Tallied()
      ensures r.Taken? ==> r.planned.snapshot == expected && own == old(own).(captured := Some(expected.inode))
      ensures r.Refused? ==> own.created == old(own.created) && Tmp !in own.disposed && own.role.Writer?
      ensures r.Refused? ==> r.outcome.Threw? && Truthful(own, r.outcome) && Named(r.outcome.failures, {Previous, Rollback})
                             && (Left(own, Previous) || Left(own, Rollback) ==> r.outcome.failures != [])
      ensures Undisturbed() && Target in old(Seen()) && old(Seen())[Target].snapshot == expected ==>
                r == Taken(old(Seen())[Target])
                && Seen() == (old(Seen()) - {Target})[Private(me, Previous) := old(Seen())[Target]]
      ensures Undisturbed() && !(Target in old(Seen()) && old(Seen())[Target].snapshot == expected) ==>
                r == Refused(Threw(Uncommitted, TargetChanged, [])) && Seen() == old(Seen())
      ensures r.Taken? ==> stumbled == old(stumbled)
      ensures HooksOnly() && r.Taken? ==> Observe(fs, Private(me, Previous)) == Some(r.planned) && Target !in fs.names
    {
      r := TakeTarget(expected);
      if r.Taken? {
        var threw := Hook();   // afterQuarantine
        var intact := Moved(Previous, r.planned);
        if threw || !intact {
          var outcome := GiveUp(if threw then HookFailed else Integrity, [], Some(r.planned), x);
          r := Refused(outcome);
        }
      }
    }

    /** The second half: everything after the target is out of the way. */
    method InstallTaken(temp: Artifact, q: Option<Artifact>, x: Expectation, ghost v: map<Name, Artifact>)
      returns (outcome: Outcome)
      requires Valid() && tempLinks == 1 && filled == Some(temp.snapshot) && own.role.Writer? && Quarantined(q, x)
      requires !own.installed && own.retracted.None? && !own.settled && own.validations == [] && own.cleared == []
      modifies this`fs, this`trace, this`view, this`clock, this`stumbled, this`own, this`tempLinks, this`recountFailed
      ensures Valid()
      ensures own.created == old(own.created) && Tmp !in own.disposed && own.role.Writer?
      ensures Truthful(own, outcome) && Tallied()
      ensures outcome.Returned? ==> own.validations == [FileOf(temp), FileOf(temp)]
      ensures Left(own, Previous) || Left(own, Rollback) ==> outcome.failures != []
      ensures Named(outcome.failures, {Previous, Rollback})
      ensures Undisturbed() && temp.links == 1
              && v.Keys <= {Target, Private(me, Tmp)} && Private(me, Tmp) in v && v[Private(me, Tmp)] == temp
              && (if q.Some? then Target in v && v[Target] == q.value else Target !in v)
              && old(Seen()) == (if q.Some? then (v - {Target})[Private(me, Previous) := q.value] else v) ==>
                || (outcome == Returned([]) && Seen() == InstalledView(v, me, temp) && tempLinks == 2
                    && !Blocked(x.absent) && Target !in x.absent)
                || (outcome == Threw(Uncommitted, AlternateAppeared, []) && !Clear(x.absent)
                    && Seen() == v && tempLinks == 1)
      ensures outcome == Returned([]) ==> stumbled == old(stumbled)
      ensures outcome.Returned? ==> own.cleared == x.absent
    {
      var cause := InstallLink(temp, q);
      if cause.Some? {
        outcome := GiveUp(cause.value, [], q, x);
        return;
      }
      tempLinks := 2;
      Accounted();
      if temp.links == 1 && v.Keys <= {Target, Private(me, Tmp)} && Private(me, Tmp) in v
         && v[Private(me, Tmp)] == temp
         && (if q.Some? then Target in v && v[Target] == q.value else Target !in v) {
        InstallAlgebra(v, me, temp, q);
      }
      outcome := AfterInstall(temp, q, x);
    }

    // ---- the temporary file ----

    /** Create, write, chmod and bind the temporary file. A read through the open handle is a
        look at the private name, which stays bound to the created inode. */
    method Prepare(content: string, mode: nat) returns (r: Preparation)
      requires Valid() && own.created.None? && own.captured.None? && own.disposed == {} && filled.None?
      modifies this`fs, this`trace, this`view, this`clock, this`stumbled, this`own, this`filled
      ensures Valid()
      ensures r.Ready? ==>
                && r.temp.links == 1 && own == old(own).(created := Some(r.temp.snapshot.inode))
                && FileOf(r.temp) == File(content, mode % 512) && filled == Some(r.temp.snapshot)
      ensures r.NotReady? ==>
                && r.outcome.Threw? && r.outcome.errorClass == Uncommitted
                && OnlyDisposes(old(own).(created := own.created), own, Tmp)
                && (Left(own, Tmp) ==> r.outcome.failures != []) && Named(r.outcome.failures, {Tmp})
      ensures Undisturbed() ==>
                r.Ready? && r.temp.snapshot == Snapshot(own.created.value, content, mode % 512)
                && Seen() == old(Seen())[Private(me, Tmp) := r.temp]
      ensures r.Ready? ==> stumbled == old(stumbled)
    {
      var made := CreateTemporary(mode);
      if !made { return NotReady(Threw(Uncommitted, Io, [])); }
      Accounted();
      var temp := Fill(content, mode);
      if temp.Some? {
        Spelled();
        Open(me, regime, Origin(origin, begun), trace, Standing(fs, own, filled, view));
        Close(me, regime, Origin(origin, begun), trace, Standing(fs, own, Some(temp.value.snapshot), view));
        filled := Some(temp.value.snapshot);
        return Ready(temp.value);
      }
      var failures := DropUnfinished();
      r := NotReady(Threw(Uncommitted, Integrity, failures));
    }

    /** open(O_CREAT | O_EXCL) */
    method CreateTemporary(mode: nat) returns (ok: bool)
      requires Valid() && own.created.None? && own.captured.None? && own.disposed == {} && filled.None?
      modifies this`fs, this`trace, this`view, this`clock, this`stumbled, this`own
      ensures Valid()
      ensures own == if ok then old(own).(created := own.created) else old(own)
      ensures ok ==> own.created.Some?
      ensures Undisturbed() ==>
                ok && Seen() == old(Seen())[Private(me, Tmp) := Artifact(Snapshot(own.created.value, "", mode % 512), 1)]
      ensures ok ==> stumbled == old(stumbled)
    {
      var threw := Interact();
      if threw { return false; }
      AccountedFor(Tmp);
      Perform(Create(fs.next, File("", mode % 512)));
      ok := true;
    }

    /** `cleanupBeforeCommit`: drop a temporary file that could not be prepared. */
    method DropUnfinished() returns (failures: seq<CleanupFailure>)
      requires Valid() && own.created.Some? && own.captured.None? && own.disposed == {}
      modifies this`fs, this`trace, this`view, this`clock, this`stumbled, this`own
      ensures Valid() && OnlyDisposes(old(own), own, Tmp)
      ensures (Left(own, Tmp) ==> failures != []) && Named(failures, {Tmp})
    {
      var binding := Look(Private(me, Tmp));
      var failure := Cleanup(Tmp, if binding.Read? then binding.artifact else None);
      failures := if failure.Some? then [failure.value] else [];
    }

    /** The body of the try block that prepares the temporary file; None stands for a throw. */
    method Fill(content: string, mode: nat) returns (temp: Option<Artifact>)
      requires Valid() && own.created.Some? && own.captured.None? && !own.installed && own.disposed == {} && filled.None?
      modifies this`fs, this`trace, this`view, this`clock, this`stumbled, this`own
      ensures Valid() && own == old(own)
      ensures temp.Some? ==>
                && temp.value.links == 1 && own.created == Some(temp.value.snapshot.inode)
                && FileOf(temp.value) == File(content, mode % 512) && Observe(fs, Private(me, Tmp)) == temp
      ensures Undisturbed() && Private(me, Tmp) in old(Seen()) && old(Seen())[Private(me, Tmp)].links == 1 ==>
                temp == Some(Artifact(Snapshot(own.created.value, content, mode % 512), 1))
                && Seen() == old(Seen())[Private(me, Tmp) := temp.value]
      ensures temp.Some? ==> stumbled == old(stumbled)
    {
      Accounted();
      SeesOnly(fs, me, own);
      var empty := Look(Private(me, Tmp));
      if empty.Unreadable? || empty.artifact.None? || empty.artifact.value.links != 1 { return None; }
      var written := Rewrite(content, None);
      if written.None? || written.value.snapshot.content != content || written.value.links != 1 { return None; }
      var prepared := Rewrite(content, Some(mode % 512));
      if prepared.None? || prepared.value.snapshot.content != content
         || prepared.value.snapshot.mode != mode % 512 || prepared.value.links != 1 {
        return None;
      }
      var r := Look(Private(me, Tmp));
      if r != Read(prepared) { return None; }
      var hookThrew := Hook();   // beforeCommit
      if hookThrew { return None; }
      r := Look(Private(me, Tmp));
      if r != Read(prepared) { return None; }
      temp := prepared;
    }

    /** Write the bytes, or change the mode, of the temporary file and read it back. */
    method Rewrite(content: string, mode: Option<nat>) returns (after: Option<Artifact>)
      requires Valid() && own.created.Some? && own.captured.None? && !own.installed && own.disposed == {} && filled.None?
      modifies this`fs, this`trace, this`view, this`clock, this`stumbled, this`own
      ensures Valid() && own == old(own)
      ensures after.Some? ==> own.created == Some(after.value.snapshot.inode)
      ensures Undisturbed() && Private(me, Tmp) in old(Seen()) ==>
                var was := old(Seen())[Private(me, Tmp)];
                && after == Some(Artifact(Snapshot(own.created.value,
                                                   if mode.None? then content else was.snapshot.content,
                                                   if mode.None? then was.snapshot.mode else mode.value),
                                          was.links))
                && (was.links == 1 ==> Seen() == old(Seen())[Private(me, Tmp) := after.value])
      ensures after.Some? ==> stumbled == old(stumbled)
    {
      var threw := Interact();
      AccountedFor(Tmp);
      if threw { return None; }
      var i := own.created.value;
      var file := fs.files[i];
      var rewritten := if mode.None? then file.(content := content) else file.(mode := mode.value);
      Spelled();
      if LinkCount(fs, i) == 1 {
        WriteView(fs, me, own, Private(me, Tmp), rewritten);
      }
      Perform(Write(i, rewritten));
      var r := Look(Private(me, Tmp));
      AccountedFor(Tmp);
      if r.Unreadable? || r.artifact.None? { return None; }
      after := r.artifact;
    }

    // ---- the two exported operations ----

    /**
      `atomicWriteTextIfUnchanged`, for every world and every fault. The execution is a trace of
      legal moves, so that `AtomicTrace` and `AtomicRace` apply. The outcome tells the truth about
      this call's own effect on the target: an ordinary failure took no foreign file off it, or
      says that something is left; with a world that moves only at hooks it took none at all. A
      normal return twice saw exactly the new bytes and mode at the target, and without clean-up
      failures saw them there at last under one name. No private name is left behind unreported;
      reported names exist. A normal return saw every path that must be absent not to exist after
      the validations, and one without clean-up failures means that nothing threw. In an
      undisturbed run the target ends up holding the new file, or everything is as before; which of
      the two, is decided by whether a path that must be absent exists.
     */
    method WriteIfUnchanged(content: string, mode: nat, x: Expectation, parentBound: bool) returns (outcome: Outcome)
      requires Valid() && tempLinks == 1 && filled.None? && own == Begin(Writer, IdentityOf(x.expected))
      modifies this
      ensures Stands() && WellFormed(fs) && Accounts(fs, me, own) && Seen() == View(fs, me)
      ensures Traced(me, origin, begun, trace, fs, own) && own.returned == outcome.Returned?
      ensures HooksOnly() ==> ExactlyOwn(own)
      ensures Truthful(own, outcome)
      ensures outcome.Returned? ==> own.validations == [File(content, mode % 512), File(content, mode % 512)]
      ensures outcome == Returned([]) ==> own.alone
      ensures Leftover(fs, me) ==> outcome.failures != []
      ensures Named(outcome.failures, ALL_KINDS)
      ensures Undisturbed() && SnapshotIn(old(Seen())) != x.expected ==>
                outcome == Threw(Uncommitted, TargetChanged, []) && Seen() == old(Seen())
      ensures Undisturbed() && SnapshotIn(old(Seen())) == x.expected ==>
                || (outcome == Returned([]) && !Blocked(x.absent) && Target !in x.absent
                    && Seen() == map[Target := Artifact(Snapshot(own.created.value, content, mode % 512), 1)])
                || (outcome == Threw(Uncommitted, AlternateAppeared, []) && !Clear(x.absent) && Seen() == old(Seen()))
      ensures outcome == Returned([]) && !old(stumbled) ==> Smooth(world, clock)
      ensures outcome.Returned? ==> own.cleared == x.absent
      ensures Undisturbed() && Blocked(x.absent) ==> own.captured.None? && !own.installed
      ensures Undisturbed() && SnapshotIn(old(Seen())) == x.expected && (forall n <- x.absent :: n in regime.lasting) ==>
                (outcome == Threw(Uncommitted, AlternateAppeared, []) <==> exists n <- x.absent :: n in origin.names)
      ensures Undisturbed() && SnapshotIn(old(Seen())) != x.expected ==> (own.created.Some? <==> !parentBound)
    {
      outcome := WriteText(content, mode, x, parentBound);
      Spelled();
      Accounted();
    }

    method WriteText(content: string, mode: nat, x: Expectation, parentBound: bool) returns (outcome: Outcome)
      requires Valid() && tempLinks == 1 && filled.None? && own == Begin(Writer, IdentityOf(x.expected))
      modifies this
      ensures Stands() && own.returned == outcome.Returned?
      ensures Truthful(own, outcome)
      ensures outcome.Returned? ==> own.validations == [File(content, mode % 512), File(content, mode % 512)]
      ensures outcome == Returned([]) ==> own.alone
      ensures Leftover(fs, me) ==> outcome.failures != []
      ensures Named(outcome.failures, ALL_KINDS)
      ensures Undisturbed() && SnapshotIn(old(Seen())) != x.expected ==>
                outcome == Threw(Uncommitted, TargetChanged, []) && Seen() == old(Seen())
      ensures Undisturbed() && SnapshotIn(old(Seen())) == x.expected ==>
                || (outcome == Returned([]) && !Blocked(x.absent) && Target !in x.absent
                    && own.created.Some? && Seen() == map[Target := Artifact(Snapshot(own.created.value, content, mode % 512), 1)])
                || (outcome == Threw(Uncommitted, AlternateAppeared, []) && !Clear(x.absent) && Seen() == old(Seen()))
      ensures outcome == Returned([]) ==> stumbled == old(stumbled)
      ensures outcome.Returned? ==> own.cleared == x.absent
      ensures Undisturbed() && Blocked(x.absent) ==> own.captured.None? && !own.installed
      ensures Undisturbed() && SnapshotIn(old(Seen())) != x.expected ==> (own.created.Some? <==> !parentBound)
    {
      ghost var v := Seen();
      Spelled();
      SeesOnly(fs, me, own);
      if parentBound {
        var cause := AssertExpectation(x);
        if cause.Some? {
          OnlyIfLeft(fs, me, own);
          return Threw(Uncommitted, cause.value, []);
        }
      }
      var preparation := Prepare(content, mode);
      if preparation.NotReady? {
        OnlyIfLeft(fs, me, own);
        return preparation.outcome;
      }
      outcome := WritePrepared(preparation.temp, x, v);
    }

    /** The rest, once the temporary file is ready; `v` is the view before it was created. */
    method WritePrepared(temp: Artifact, x: Expectation, ghost v: map<Name, Artifact>) returns (outcome: Outcome)
      requires Valid() && tempLinks == 1 && filled == Some(temp.snapshot) && temp.links == 1
      requires own == Begin(Writer, IdentityOf(x.expected)).(created := Some(temp.snapshot.inode))
      modifies this
      ensures Stands() && own.returned == outcome.Returned?
      ensures own.created == old(own.created) && Truthful(own, outcome)
      ensures outcome.Returned? ==> own.validations == [FileOf(temp), FileOf(temp)]
      ensures outcome == Returned([]) ==> own.alone
      ensures Leftover(fs, me) ==> outcome.failures != []
      ensures Named(outcome.failures, ALL_KINDS)
      ensures Undisturbed() && v.Keys <= {Target} && old(Seen()) == v[Private(me, Tmp) := temp] ==>
                if SnapshotIn(v) != x.expected then outcome == Threw(Uncommitted, TargetChanged, []) && Seen() == v
                else || (outcome == Returned([]) && !Blocked(x.absent) && Target !in x.absent && Seen() == map[Target := temp])
                     || (outcome == Threw(Uncommitted, AlternateAppeared, []) && !Clear(x.absent) && Seen() == v)
      ensures outcome == Returned([]) ==> stumbled == old(stumbled)
      ensures outcome.Returned? ==> own.cleared == x.absent
      ensures Undisturbed() && Blocked(x.absent) ==> own.captured.None? && !own.installed
    {
      TemporaryIsApart(fs, me, own);
      NameShown(Target);
      NameShown(Private(me, Tmp));
      if v.Keys <= {Target} && Seen() == v[Private(me, Tmp) := temp] {
        FinishAlgebra(v, me, temp);
      }
      var installed := ConditionalInstall(temp, x);
      outcome := FinishWrite(temp, installed);
    }

    /** After `conditionalInstall`: clean the temporary name up and settle the result. */
    method FinishWrite(temp: Artifact, installed: Outcome) returns (outcome: Outcome)
      requires Valid() && own.role.Writer? && filled == Some(temp.snapshot) && temp.links == 1 && Tmp !in own.disposed
      requires Truthful(own, installed) && Tallied()
      requires Left(own, Previous) || Left(own, Rollback) ==> installed.failures != []
      requires Named(installed.failures, {Previous, Rollback})
      modifies this
      ensures Stands()
      ensures own.created == old(own.created) && own.validations == old(own.validations)
      ensures own.returned == outcome.Returned? && (outcome.Returned? ==> installed.Returned?)
      ensures Truthful(own, outcome)
      ensures outcome == Returned([]) ==> own.alone
      ensures Leftover(fs, me) ==> outcome.failures != []
      ensures Named(outcome.failures, ALL_KINDS)
      ensures Undisturbed() && temp.links == 1
              && Private(me, Tmp) in old(Seen()) && old(Seen())[Private(me, Tmp)] == temp.(links := old(tempLinks))
              && (installed == Returned([]) ==>
                    old(tempLinks) == 2 && Target in old(Seen()) && old(Seen())[Target] == temp.(links := 2)) ==>
                (installed.Threw? || installed == Returned([]) ==> outcome == installed)
                && Seen() == Fewer(old(Seen()) - {Private(me, Tmp)}, temp.snapshot.inode)
      ensures outcome == Returned([]) ==> installed == Returned([]) && stumbled == old(stumbled)
      ensures own.cleared == old(own.cleared)
      ensures own.captured == old(own.captured) && own.installed == old(own.installed)
    {
      TalliedInView(temp);
      var failures, clean := DropTemporary(temp, installed.failures);
      OnlyIfLeft(fs, me, own);
      if installed.Threw? {
        return Threw(installed.errorClass, installed.cause, failures);
      }
      outcome := ReturnWritten(temp, failures, clean);
    }

    /** The last check, and the normal return. */
    method ReturnWritten(temp: Artifact, failures: seq<CleanupFailure>, clean: bool) returns (outcome: Outcome)
      requires Valid() && own.role.Writer? && own.created == Some(temp.snapshot.inode) && temp.links == 1
      requires Truthful(own, Returned(failures)) && Named(failures, ALL_KINDS)
      requires Left(own, Tmp) || Left(own, Previous) || Left(own, Rollback) ==> failures != []
      requires !clean ==> failures != []
      modifies this
      ensures Stands() && own == old(own).(alone := own.alone, returned := outcome.Returned?)
      ensures Truthful(own, outcome) && outcome.failures == failures
      ensures outcome == Returned([]) ==> own.alone
      ensures Leftover(fs, me) ==> outcome.failures != []
      ensures Named(outcome.failures, ALL_KINDS)
      ensures Quiet() ==> Seen() == old(Seen())
      ensures Undisturbed() && Target in old(Seen()) && old(Seen())[Target] == temp ==> outcome.Returned?
      ensures outcome.Returned? ==> stumbled == old(stumbled)
    {
      var settled := FinalCheck(temp, clean);
      StillNamed(me, old(fs), old(own), fs, own, failures, ALL_KINDS);
      OnlyIfLeft(fs, me, own);
      if !settled {
        return Threw(CommittedMutation, Integrity, failures);
      }
      Note(Return);
      outcome := Returned(failures);
    }

    method DropTemporary(temp: Artifact, earlier: seq<CleanupFailure>)
      returns (failures: seq<CleanupFailure>, clean: bool)
      requires Valid() && own.role.Writer? && filled == Some(temp.snapshot) && Tmp !in own.disposed
      requires Quiet() && !recountFailed ==>
                 Private(me, Tmp) in Seen() && Seen()[Private(me, Tmp)] == temp.(links := tempLinks)
      requires Left(own, Previous) || Left(own, Rollback) ==> earlier != []
      requires Named(earlier, {Previous, Rollback})
      modifies this`fs, this`trace, this`view, this`clock, this`stumbled, this`own
      ensures Valid() && OnlyDisposes(old(own), own, Tmp)
      ensures Left(own, Tmp) || Left(own, Previous) || Left(own, Rollback) ==> failures != []
      ensures Named(failures, ALL_KINDS)
      ensures clean ==> failures == earlier && Tmp in own.erased
      ensures !clean ==> failures != []
      ensures Undisturbed()
              && Private(me, Tmp) in old(Seen()) && old(Seen())[Private(me, Tmp)] == temp.(links := old(tempLinks)) ==>
                clean && Seen() == Fewer(old(Seen()) - {Private(me, Tmp)}, temp.snapshot.inode)
      ensures clean ==> stumbled == old(stumbled)
    {
      var failure := Cleanup(Tmp, Some(temp.(links := tempLinks)));
      StillNamed(me, old(fs), old(own), fs, own, earlier, {Previous, Rollback});
      clean := failure.None?;
      failures := if clean then earlier else earlier + [failure.value];
    }

    /** What was counted is what the view shows. */
    lemma TalliedInView(temp: Artifact)
      requires Valid() && filled == Some(temp.snapshot) && Tmp !in own.disposed && Tallied()
      ensures Quiet() && !recountFailed ==>
                Private(me, Tmp) in Seen() && Seen()[Private(me, Tmp)] == temp.(links := tempLinks)
    {
      Accounted();
      AccountedFor(Tmp);
      Spelled();
    }

    /** The target must have reached its final single-link state. */
    method FinalCheck(temp: Artifact, clean: bool) returns (ok: bool)
      requires Valid() && own.role.Writer? && InPlace(own) && own.settled
      requires own.created == Some(temp.snapshot.inode) && temp.links == 1
      modifies this`fs, this`trace, this`view, this`clock, this`stumbled, this`own
      ensures Valid() && own == old(own).(alone := own.alone)
      ensures ok && clean ==> own.alone
      ensures Quiet() ==> Seen() == old(Seen())
      ensures Undisturbed() && Target in old(Seen()) && old(Seen())[Target] == temp ==> ok
      ensures ok ==> stumbled == old(stumbled)
    {
      if clean {
        var r := Look(Target);
        if r != Read(Some(temp)) { return false; }
        Note(SeeAlone(temp.snapshot.inode));
      }
      var threw := Interact();
      ok := !threw;
    }

    /**
      `unlinkRegularFileIfUnchanged`, with the same promises as `WriteIfUnchanged`: in an
      undisturbed run the target is gone, or everything is as before.
     */
    method UnlinkIfUnchanged(x: Expectation) returns (outcome: Outcome)
      requires Valid() && filled.None? && own == Begin(Unlinker, IdentityOf(x.expected))
      modifies this
      ensures Stands() && WellFormed(fs) && Accounts(fs, me, own) && Seen() == View(fs, me)
      ensures Traced(me, origin, begun, trace, fs, own) && own.returned == outcome.Returned?
      ensures HooksOnly() ==> ExactlyOwn(own)
      ensures TruthfulUnlink(own, outcome)
      ensures Leftover(fs, me) ==> outcome.failures != []
      ensures Named(outcome.failures, ALL_KINDS)
      ensures Undisturbed() && (SnapshotIn(old(Seen())) != x.expected || x.expected.None?) ==>
                outcome.Threw? && outcome.errorClass == Uncommitted && outcome.failures == [] && Seen() == old(Seen())
      ensures Undisturbed() && SnapshotIn(old(Seen())) == x.expected && x.expected.Some? ==>
                || (outcome == Returned([]) && !Blocked(x.absent) && Target !in x.absent && Seen() == map[])
                || (outcome == Threw(Uncommitted, AlternateAppeared, []) && !Clear(x.absent) && Seen() == old(Seen()))
      ensures outcome == Returned([]) && !old(stumbled) ==> Smooth(world, clock)
      ensures outcome.Returned? ==> own.cleared == x.absent
      ensures Undisturbed() && Blocked(x.absent) ==> own.captured.None? && !own.installed
      ensures Undisturbed() && SnapshotIn(old(Seen())) == x.expected && x.expected.Some?
              && (forall n <- x.absent :: n in regime.lasting) ==>
                (outcome == Threw(Uncommitted, AlternateAppeared, []) <==> exists n <- x.absent :: n in origin.names)
    {
      outcome := UnlinkFile(x);
      Spelled();
      Accounted();
    }

    method UnlinkFile(x: Expectation) returns (outcome: Outcome)
      requires Valid() && filled.None? && own == Begin(Unlinker, IdentityOf(x.expected))
      modifies this
      ensures Stands() && own.returned == outcome.Returned?
      ensures TruthfulUnlink(own, outcome)
      ensures Leftover(fs, me) ==> outcome.failures != []
      ensures Named(outcome.failures, ALL_KINDS)
      ensures Undisturbed() && (SnapshotIn(old(Seen())) != x.expected || x.expected.None?) ==>
                outcome.Threw? && outcome.errorClass == Uncommitted && outcome.failures == [] && Seen() == old(Seen())
      ensures Undisturbed() && SnapshotIn(old(Seen())) == x.expected && x.expected.Some? ==>
                || (outcome == Returned([]) && !Blocked(x.absent) && Target !in x.absent && Seen() == map[])
                || (outcome == Threw(Uncommitted, AlternateAppeared, []) && !Clear(x.absent) && Seen() == old(Seen()))
      ensures outcome == Returned([]) ==> stumbled == old(stumbled)
      ensures outcome.Returned? ==> own.cleared == x.absent
      ensures Undisturbed() && Blocked(x.absent) ==> own.captured.None? && !own.installed
    {
      Spelled();
      SeesOnly(fs, me, own);
      var cause := BeforeUnlink(x);
      if cause.Some? {
        OnlyIfLeft(fs, me, own);
        return Threw(Uncommitted, cause.value, []);
      }
      var taking := TakeTarget(x.expected.value);
      OnlyIfLeft(fs, me, own);
      if taking.Refused? { return taking.outcome; }
      outcome := UnlinkTaken(taking.planned, x);
    }

    /** Everything before the planned read. */
    method BeforeUnlink(x: Expectation) returns (cause: Option<Cause>)
      requires Valid()
      modifies this`fs, this`trace, this`view, this`clock, this`stumbled
      ensures Valid()
      ensures cause.None? ==> x.expected.Some?
      ensures Undisturbed() ==> Seen() == old(Seen())
      ensures Undisturbed() && SnapshotIn(old(Seen())) != x.expected ==> cause.Some?
      ensures Undisturbed() && SnapshotIn(old(Seen())) == x.expected && x.expected.Some? ==>
                cause.None? || (cause == Some(AlternateAppeared) && !Clear(x.absent))
      ensures Undisturbed() && (Blocked(x.absent) || (Target in x.absent && Target in old(Seen()))) ==> cause.Some?
      ensures cause.None? ==> stumbled == old(stumbled)
      ensures HooksOnly() && cause.None? ==> AsExpected(fs, x)
    {
      var threw := Interact();
      if threw { return Some(Io); }
      cause := AssertExpectation(x);
      if cause.Some? { return; }
      threw := Hook();   // beforeCommit
      if threw { return Some(HookFailed); }
      threw := Interact();
      if threw { return Some(Io); }
      cause := AssertExpectation(x);
      if cause.None? && x.expected.None? { cause := Some(TargetChanged); }
    }

    /** From the verified quarantine on: look for alternates, then restore or discard. */
    method UnlinkTaken(q: Artifact, x: Expectation) returns (outcome: Outcome)
      requires Valid() && x.expected == Some(q.snapshot)
      requires own == Begin(Unlinker, IdentityOf(x.expected)).(captured := Some(q.snapshot.inode))
      modifies this
      ensures Stands() && own.returned == outcome.Returned?
      ensures TruthfulUnlink(own, outcome)
      ensures Leftover(fs, me) ==> outcome.failures != []
      ensures Named(outcome.failures, ALL_KINDS)
      ensures Undisturbed() && old(Seen()) == map[Private(me, Deleted) := q] ==>
                || (outcome == Returned([]) && !Blocked(x.absent) && Seen() == map[])
                || (outcome == Threw(Uncommitted, AlternateAppeared, []) && !Clear(x.absent)
                    && Seen() == map[Target := q])
      ensures outcome == Returned([]) ==> stumbled == old(stumbled)
      ensures outcome.Returned? ==> own.cleared == x.absent
    {
      var cause := SeeAlternates(x.absent);
      if cause.Some? {
        outcome := GiveBackDeleted(cause.value, q);
      } else {
        outcome := DropDeleted(q);
      }
    }

    /** An alternate path appeared: the deleted original goes back to the target. */
    method GiveBackDeleted(cause: Cause, q: Artifact) returns (outcome: Outcome)
      requires Valid() && own == Begin(Unlinker, Some(q.snapshot.inode)).(captured := Some(q.snapshot.inode), cleared := own.cleared)
      modifies this
      ensures Stands() && !own.returned && outcome.Threw? && TruthfulUnlink(own, outcome)
      ensures Leftover(fs, me) ==> outcome.failures != []
      ensures Named(outcome.failures, ALL_KINDS)
      ensures Undisturbed() && old(Seen()) == map[Private(me, Deleted) := q] ==>
                outcome == Threw(Uncommitted, cause, []) && Seen() == map[Target := q]
    {
      var failures := Restore(q);
      outcome := Verdict(cause, failures, {Deleted}, q.snapshot);
      OnlyIfLeft(fs, me, own);
      assert Undisturbed() && old(Seen()) == map[Private(me, Deleted) := q] ==> Seen() == map[Target := q];
    }

    method DropDeleted(q: Artifact) returns (outcome: Outcome)
      requires Valid() && own.role.Unlinker? && own.captured == Some(q.snapshot.inode) && own.expected == own.captured
      requires !own.relinked && !own.confirmed && own.disposed == {} && own.created.None?
      modifies this
      ensures Stands() && own.returned == outcome.Returned?
      ensures TruthfulUnlink(own, outcome)
      ensures Leftover(fs, me) ==> outcome.failures != []
      ensures Named(outcome.failures, ALL_KINDS)
      ensures Undisturbed() && old(Seen()) == map[Private(me, Deleted) := q] ==>
                outcome == Returned([]) && Seen() == map[]
      ensures outcome == Returned([]) ==> stumbled == old(stumbled)
      ensures own.cleared == old(own.cleared)
    {
      Note(Settle);
      var failure := Cleanup(Deleted, Some(q));
      outcome := ReturnUnlinked(if failure.Some? then [failure.value] else []);
    }

    /** The parent directory is checked once more, and the normal return. */
    method ReturnUnlinked(failures: seq<CleanupFailure>) returns (outcome: Outcome)
      requires Valid() && own.role.Unlinker? && own.settled && own.captured.Some? && own.captured == own.expected
      requires !own.relinked && !own.confirmed && own.created.None? && Named(failures, {Deleted})
      requires Left(own, Deleted) ==> failures != []
      modifies this
      ensures Stands() && own == old(own).(returned := outcome.Returned?)
      ensures outcome.failures == failures && TruthfulUnlink(own, outcome)
      ensures Leftover(fs, me) ==> failures != []
      ensures Named(failures, ALL_KINDS)
      ensures Quiet() ==> Seen() == old(Seen())
      ensures Undisturbed() ==> outcome.Returned?
      ensures outcome.Returned? ==> stumbled == old(stumbled)
    {
      var threw := Interact();
      StillNamed(me, old(fs), own, fs, own, failures, {Deleted});
      OnlyIfLeft(fs, me, own);
      if threw { return Threw(CommittedUnlink, Io, failures); }
      Note(Return);
      outcome := Returned(failures);
    }

    /**
      Compare and swap for this very call: once it has returned normally, no other call of the
      machine around it that was planned against the same file has, and this one took that file.
     */
    lemma ReturnsAlone(states: seq<System>, steps: seq<Step>, at: seq<System>, q: Pid, i: Inode)
      requires Stands() && own.returned && own.expected == Some(i)
      requires Run(states, steps) && Surrounds(at, me, false, trace, fs)
      requires states[|steps|] == at[0] && me in at[0].calls && at[0].calls[me] == begun
      requires var calls := at[|trace|].calls; q in calls && calls[q].returned && calls[q].expected == Some(i)
      ensures q == me && own.captured == Some(i)
    {
      Spelled();
      ExecutedCallReturnsAlone(states, steps, at, me, origin, begun, trace, fs, own, q, i);
    }

    /** The same for a creation: the target is then the file this call created. */
    lemma CreatesAlone(states: seq<System>, steps: seq<Step>, at: seq<System>, q: Pid)
      requires Stands() && own.returned
      requires CreationRace(states, steps) && Surrounds(at, me, true, trace, fs)
      requires states[|steps|] == at[0] && me in at[0].calls && at[0].calls[me] == begun
      requires q in at[|trace|].calls && at[|trace|].calls[q].returned
      ensures q == me && own.created.Some? && Lookup(fs, Target) == own.created
    {
      Spelled();
      ExecutedCallCreatesAlone(states, steps, at, me, origin, begun, trace, fs, own, q);
    }
  }
}
