/**
  Any number of conditional writers and conditional unlinkers on one pathname,
  interleaved at every filesystem call, together with outsiders that use ordinary
  names (src/agent-file/atomic-write.ts).
 */
module AtomicRace {
  import opened Options
  import opened AtomicProtocol

  datatype System = System(fs: Fs, calls: map<Pid, Own>)

  datatype Step =
    | Start(pid: Pid, role: Role, expected: Option<Inode>)
    | Act(pid: Pid, effect: Effect)
    | Foreign

  /** The files `own` took off the target and has not put back. */
  function Held(own: Own): set<Inode> {
    (if own.captured.Some? && !own.relinked then {own.captured.value} else {})
    + (if own.retracted.Some? then {own.retracted.value} else {})
  }

  /** The temporary file while it is not yet linked to the target. */
  function Unpublished(own: Own): set<Inode> {
    if own.created.Some? && !own.installed then {own.created.value} else {}
  }

  /** An outsider may do anything with shared names, except put at the target a file
      that some call has displaced or has not published yet. */
  ghost predicate ForeignStep(g: System, g': System) {
    && g'.calls == g.calls
    && WellFormed(g'.fs)
    && g.fs.next <= g'.fs.next
    && g.fs.files.Keys <= g'.fs.files.Keys
    && (forall i <- g'.fs.files :: i in g.fs.files || g.fs.next <= i)
    && (forall n: Name :: n.Private? || n.Disposal? ==> Lookup(g'.fs, n) == Lookup(g.fs, n))
    && (Target in g'.fs.names && Lookup(g.fs, Target) != Lookup(g'.fs, Target) ==>
          forall p <- g.calls :: g'.fs.names[Target] !in Held(g.calls[p]) + Unpublished(g.calls[p]))
  }

  ghost predicate Next(g: System, g': System, step: Step) {
    match step
    case Start(p, role, expected) =>
      p !in g.calls && g' == g.(calls := g.calls[p := Begin(role, expected)])
    case Act(p, e) =>
      && p in g.calls
      && Legal(g.calls[p], e)
      && Enabled(g.fs, p, g.calls[p].role, e)
      && g' == System(Apply(g.fs, p, g.calls[p].role, e), g.calls[p := Advance(g.calls[p], e)])
    case Foreign => ForeignStep(g, g')
  }

  ghost predicate Initial(g: System) {
    WellFormed(g.fs) && g.calls == map[] && forall n <- g.fs.names :: n.Target? || n.Plain?
  }

  /** A run: `states[k]` steps to `states[k+1]` by `steps[k]`. */
  ghost predicate Run(states: seq<System>, steps: seq<Step>) {
    && |states| == |steps| + 1
    && Initial(states[0])
    && forall k | 0 <= k < |steps| :: Next(states[k], states[k + 1], steps[k])
  }

  ghost predicate Accounted(g: System) {
    && WellFormed(g.fs)
    && (forall p <- g.calls :: Accounts(g.fs, p, g.calls[p]))
    && (forall n <- g.fs.names | n.Private? || n.Disposal? :: n.owner in g.calls)
  }

  /** A displaced or unpublished file is not at the target. */
  ghost predicate OffTarget(fs: Fs, own: Own) {
    && (Target in fs.names ==> fs.names[Target] !in Held(own) + Unpublished(own))
    && (forall i <- Held(own) :: i < fs.next)
    && (own.created.Some? ==> own.created.value < fs.next)
    && (own.captured.Some? && own.retracted.Some? && !own.relinked ==> own.captured != own.retracted)
    && Held(own) !! Unpublished(own)
  }

  /** Two calls never hold the same file, and a temporary file has one creator. */
  ghost predicate Separate(a: Own, b: Own) {
    && Held(a) !! Held(b)
    && Held(a) !! Unpublished(b)
    && Unpublished(a) !! Held(b)
    && (a.created.Some? ==> a.created != b.created)
  }

  ghost predicate Exclusive(g: System) {
    && (forall p <- g.calls :: OffTarget(g.fs, g.calls[p]))
    && (forall p, q | p in g.calls && q in g.calls && p != q :: Separate(g.calls[p], g.calls[q]))
  }

  ghost predicate Won(own: Own) {
    && own.captured == own.expected
    && !own.relinked
    && (own.role.Writer? ==> InPlace(own))
  }

  ghost predicate ReturnedWon(g: System) {
    forall p <- g.calls | g.calls[p].returned :: Won(g.calls[p])
  }

  ghost predicate Inv(g: System) {
    Accounted(g) && Exclusive(g) && ReturnedWon(g)
  }

  lemma ReturnedStep(g: System, g': System, step: Step)
    requires ReturnedWon(g) && Next(g, g', step)
    ensures ReturnedWon(g')
  {
    if step.Act? {
      ActKeepsWon(g.calls[step.pid], step.effect);
    }
  }

  /** A call that returned takes no further step, and one that returns has won. */
  lemma ActKeepsWon(own: Own, e: Effect)
    requires Legal(own, e)
    ensures !own.returned && (Advance(own, e).returned ==> Won(Advance(own, e)))
  {
    match e
    case Return =>
    case _ =>
  }

  lemma AccountedStep(g: System, g': System, step: Step)
    requires Accounted(g) && Next(g, g', step)
    ensures Accounted(g')
  {
    match step
    case Start(p, role, expected) =>
      forall k: Kind
        ensures NameAccounted(g.fs, p, Begin(role, expected), k)
      {
        assert Private(p, k) !in g.fs.names && Disposal(p, k) !in g.fs.names;
      }
    case Act(p, e) =>
      StepKeepsAccounts(g.fs, p, g.calls[p], e);
      forall q <- g'.calls
        ensures Accounts(g'.fs, q, g'.calls[q])
      {
        if q != p {
          StepIsRely(g.fs, p, g.calls[p], e, q);
          RelyKeepsAccounts(q, g.fs, g'.fs, g.calls[q]);
        }
      }
    case Foreign =>
      forall q <- g'.calls
        ensures Accounts(g'.fs, q, g'.calls[q])
      {
        RelyKeepsAccounts(q, g.fs, g'.fs, g.calls[q]);
      }
      forall n <- g'.fs.names | n.Private? || n.Disposal?
        ensures n.owner in g'.calls
      {
        assert Lookup(g'.fs, n) == Lookup(g.fs, n);
      }
  }

  /** The steps that neither take a file off the target nor publish one. */
  predicate Inward(e: Effect) {
    !(e.Create? || e.Capture? || e.Install? || e.Retract? || e.Relink?)
  }

  lemma InwardKeeps(fs: Fs, p: Pid, own: Own, e: Effect)
    requires Legal(own, e) && Enabled(fs, p, own.role, e) && Inward(e)
    ensures var fs', own' := Apply(fs, p, own.role, e), Advance(own, e);
            && Held(own') == Held(own) && Unpublished(own') == Unpublished(own)
            && own'.created == own.created && own'.captured == own.captured && own'.retracted == own.retracted
            && own'.relinked == own.relinked && Lookup(fs', Target) == Lookup(fs, Target) && fs'.next == fs.next
  {
    match e
    case Dispose(_, _) =>
    case Erase(_, _) =>
    case _ =>
  }

  lemma OffTargetByCreate(fs: Fs, p: Pid, own: Own, e: Effect)
    requires WellFormed(fs) && NameAccounted(fs, p, own, Tmp) && NameAccounted(fs, p, own, Quarantine(own.role))
    requires Coherent(own) && OffTarget(fs, own) && Legal(own, e) && Enabled(fs, p, own.role, e) && e.Create?
    ensures OffTarget(Apply(fs, p, own.role, e), Advance(own, e))
  {
  }

  lemma OffTargetByCapture(fs: Fs, p: Pid, own: Own, e: Effect)
    requires WellFormed(fs) && NameAccounted(fs, p, own, Tmp) && NameAccounted(fs, p, own, Quarantine(own.role))
    requires Coherent(own) && OffTarget(fs, own) && Legal(own, e) && Enabled(fs, p, own.role, e) && e.Capture?
    ensures OffTarget(Apply(fs, p, own.role, e), Advance(own, e))
  {
  }

  lemma OffTargetByInstall(fs: Fs, p: Pid, own: Own, e: Effect)
    requires WellFormed(fs) && NameAccounted(fs, p, own, Tmp) && NameAccounted(fs, p, own, Quarantine(own.role))
    requires Coherent(own) && OffTarget(fs, own) && Legal(own, e) && Enabled(fs, p, own.role, e) && e.Install?
    ensures OffTarget(Apply(fs, p, own.role, e), Advance(own, e))
  {
  }

  lemma OffTargetByRetract(fs: Fs, p: Pid, own: Own, e: Effect)
    requires WellFormed(fs) && NameAccounted(fs, p, own, Tmp) && NameAccounted(fs, p, own, Quarantine(own.role))
    requires Coherent(own) && OffTarget(fs, own) && Legal(own, e) && Enabled(fs, p, own.role, e) && e.Retract?
    ensures OffTarget(Apply(fs, p, own.role, e), Advance(own, e))
  {
  }

  lemma OffTargetByRelink(fs: Fs, p: Pid, own: Own, e: Effect)
    requires WellFormed(fs) && NameAccounted(fs, p, own, Tmp) && NameAccounted(fs, p, own, Quarantine(own.role))
    requires Coherent(own) && OffTarget(fs, own) && Legal(own, e) && Enabled(fs, p, own.role, e) && e.Relink?
    ensures OffTarget(Apply(fs, p, own.role, e), Advance(own, e))
  {
  }

  /** A step of `p` keeps its own files off the target. */
  lemma ActOffTarget(fs: Fs, p: Pid, own: Own, e: Effect)
    requires WellFormed(fs) && Accounts(fs, p, own) && OffTarget(fs, own)
    requires Legal(own, e) && Enabled(fs, p, own.role, e)
    ensures OffTarget(Apply(fs, p, own.role, e), Advance(own, e))
  {
    assert NameAccounted(fs, p, own, Tmp);
    assert NameAccounted(fs, p, own, Quarantine(own.role));
    match e
    case Create(_, _) => OffTargetByCreate(fs, p, own, e);
    case Capture(_) => OffTargetByCapture(fs, p, own, e);
    case Install(_) => OffTargetByInstall(fs, p, own, e);
    case Retract(_) => OffTargetByRetract(fs, p, own, e);
    case Relink(_) => OffTargetByRelink(fs, p, own, e);
    case _ => InwardKeeps(fs, p, own, e);
  }

  lemma SeparateByCreate(fs: Fs, p: Pid, own: Own, e: Effect, other: Own)
    requires WellFormed(fs) && NameAccounted(fs, p, own, Tmp) && NameAccounted(fs, p, own, Quarantine(own.role))
    requires OffTarget(fs, own) && OffTarget(fs, other) && Separate(own, other)
    requires Legal(own, e) && Enabled(fs, p, own.role, e) && e.Create?
    ensures OffTarget(Apply(fs, p, own.role, e), other) && Separate(Advance(own, e), other)
  {
  }

  lemma SeparateByCapture(fs: Fs, p: Pid, own: Own, e: Effect, other: Own)
    requires WellFormed(fs) && NameAccounted(fs, p, own, Tmp) && NameAccounted(fs, p, own, Quarantine(own.role))
    requires OffTarget(fs, own) && OffTarget(fs, other) && Separate(own, other)
    requires Legal(own, e) && Enabled(fs, p, own.role, e) && e.Capture?
    ensures OffTarget(Apply(fs, p, own.role, e), other) && Separate(Advance(own, e), other)
  {
  }

  lemma SeparateByInstall(fs: Fs, p: Pid, own: Own, e: Effect, other: Own)
    requires WellFormed(fs) && NameAccounted(fs, p, own, Tmp) && NameAccounted(fs, p, own, Quarantine(own.role))
    requires OffTarget(fs, own) && OffTarget(fs, other) && Separate(own, other)
    requires Legal(own, e) && Enabled(fs, p, own.role, e) && e.Install?
    ensures OffTarget(Apply(fs, p, own.role, e), other) && Separate(Advance(own, e), other)
  {
  }

  lemma SeparateByRetract(fs: Fs, p: Pid, own: Own, e: Effect, other: Own)
    requires WellFormed(fs) && NameAccounted(fs, p, own, Tmp) && NameAccounted(fs, p, own, Quarantine(own.role))
    requires OffTarget(fs, own) && OffTarget(fs, other) && Separate(own, other)
    requires Legal(own, e) && Enabled(fs, p, own.role, e) && e.Retract?
    ensures OffTarget(Apply(fs, p, own.role, e), other) && Separate(Advance(own, e), other)
  {
  }

  lemma SeparateByRelink(fs: Fs, p: Pid, own: Own, e: Effect, other: Own)
    requires WellFormed(fs) && NameAccounted(fs, p, own, Tmp) && NameAccounted(fs, p, own, Quarantine(own.role))
    requires OffTarget(fs, own) && OffTarget(fs, other) && Separate(own, other)
    requires Legal(own, e) && Enabled(fs, p, own.role, e) && e.Relink?
    ensures OffTarget(Apply(fs, p, own.role, e), other) && Separate(Advance(own, e), other)
  {
  }

  /** A step of `p` neither takes nor publishes what another call `q` holds. */
  lemma ActSeparate(fs: Fs, p: Pid, own: Own, e: Effect, other: Own)
    requires WellFormed(fs) && Accounts(fs, p, own)
    requires OffTarget(fs, own) && OffTarget(fs, other) && Separate(own, other)
    requires Legal(own, e) && Enabled(fs, p, own.role, e)
    ensures OffTarget(Apply(fs, p, own.role, e), other)
    ensures Separate(Advance(own, e), other)
  {
    assert NameAccounted(fs, p, own, Tmp);
    assert NameAccounted(fs, p, own, Quarantine(own.role));
    match e
    case Create(_, _) => SeparateByCreate(fs, p, own, e, other);
    case Capture(_) => SeparateByCapture(fs, p, own, e, other);
    case Install(_) => SeparateByInstall(fs, p, own, e, other);
    case Retract(_) => SeparateByRetract(fs, p, own, e, other);
    case Relink(_) => SeparateByRelink(fs, p, own, e, other);
    case _ => InwardKeeps(fs, p, own, e);
  }

  lemma SeparateSymmetric(a: Own, b: Own)
    requires Separate(a, b)
    ensures Separate(b, a)
  {
  }

  lemma StartExclusive(g: System, g': System, step: Step)
    requires Exclusive(g) && step.Start? && Next(g, g', step)
    ensures Exclusive(g')
  {
    var own := Begin(step.role, step.expected);
    assert Held(own) == {} && Unpublished(own) == {};
    assert OffTarget(g.fs, own);
    assert forall other :: Separate(own, other) && Separate(other, own);
  }

  lemma ActExclusive(g: System, g': System, step: Step)
    requires Accounted(g) && Exclusive(g) && step.Act? && Next(g, g', step)
    ensures Exclusive(g')
  {
    var p, e := step.pid, step.effect;
    ActOffTarget(g.fs, p, g.calls[p], e);
    forall q <- g.calls | q != p
      ensures OffTarget(g'.fs, g'.calls[q])
      ensures Separate(g'.calls[p], g'.calls[q]) && Separate(g'.calls[q], g'.calls[p])
    {
      ActSeparate(g.fs, p, g.calls[p], e, g.calls[q]);
      SeparateSymmetric(g'.calls[p], g'.calls[q]);
    }
    forall q, r | q in g'.calls && r in g'.calls && q != r
      ensures Separate(g'.calls[q], g'.calls[r])
    {
    }
  }

  lemma ForeignExclusive(g: System, g': System)
    requires Exclusive(g) && ForeignStep(g, g')
    ensures Exclusive(g')
  {
  }

  lemma ExclusiveStep(g: System, g': System, step: Step)
    requires Accounted(g) && Exclusive(g) && Next(g, g', step)
    ensures Exclusive(g')
  {
    match step
    case Start(p, role, expected) => StartExclusive(g, g', step);
    case Act(p, e) => ActExclusive(g, g', step);
    case Foreign => ForeignExclusive(g, g');
  }

  lemma InvStep(g: System, g': System, step: Step)
    requires Inv(g) && Next(g, g', step)
    ensures Inv(g')
  {
    AccountedStep(g, g', step);
    ExclusiveStep(g, g', step);
    ReturnedStep(g, g', step);
  }

  lemma {:induction false} InvAlways(states: seq<System>, steps: seq<Step>, k: nat)
    requires Run(states, steps) && k < |states|
    ensures Inv(states[k])
  {
    if k > 0 {
      InvAlways(states, steps, k - 1);
      InvStep(states[k - 1], states[k], steps[k - 1]);
    }
  }

  /**
    Compare and swap. In every interleaving of any number of conditional writers and
    unlinkers, at most one call planned against a given file returns normally, and its
    quarantine rename is the one that moved exactly that file off the target.
   */
  lemma AtMostOneReturns(states: seq<System>, steps: seq<Step>, p: Pid, q: Pid, i: Inode)
    requires Run(states, steps)
    requires var calls := states[|steps|].calls;
             && p in calls && q in calls
             && calls[p].returned && calls[q].returned
             && calls[p].expected == Some(i) && calls[q].expected == Some(i)
    ensures p == q
    ensures states[|steps|].calls[p].captured == Some(i)
  {
    InvAlways(states, steps, |steps|);
    var calls := states[|steps|].calls;
    assert Won(calls[p]) && Won(calls[q]);
    assert i in Held(calls[p]) && i in Held(calls[q]);
  }

  // ---- creation races ----

  /** Only creations compete, and outsiders leave the target alone. */
  ghost predicate CreationRace(states: seq<System>, steps: seq<Step>) {
    && Run(states, steps)
    && (forall k | 0 <= k < |steps| :: CreationMove(states[k], states[k + 1], steps[k]))
  }

  ghost predicate CreationMove(g: System, g': System, step: Step) {
    && (step.Start? ==> step.role == Writer && step.expected == None)
    && (step.Foreign? ==> Lookup(g.fs, Target) == Lookup(g'.fs, Target))
  }

  ghost predicate Published(fs: Fs, own: Own) {
    && own.role == Writer
    && own.expected == None
    && (InPlace(own) ==> Lookup(fs, Target) == own.created)
  }

  ghost predicate PublishedInPlace(g: System) {
    forall p <- g.calls :: Published(g.fs, g.calls[p])
  }

  lemma ActPublished(fs: Fs, p: Pid, own: Own, e: Effect)
    requires WellFormed(fs) && Accounts(fs, p, own) && Published(fs, own)
    requires Legal(own, e) && Enabled(fs, p, own.role, e)
    ensures Published(Apply(fs, p, own.role, e), Advance(own, e))
  {
    assert NameAccounted(fs, p, own, Tmp);
  }

  lemma ActKeepsOthersPublished(fs: Fs, p: Pid, own: Own, e: Effect, other: Own)
    requires WellFormed(fs) && Accounts(fs, p, own) && Published(fs, own) && Published(fs, other)
    requires Legal(own, e) && Enabled(fs, p, own.role, e)
    requires Separate(own, other) && Coherent(other)
    ensures Published(Apply(fs, p, own.role, e), other)
  {
  }

  lemma PublishedStep(g: System, g': System, step: Step)
    requires Inv(g) && PublishedInPlace(g) && Next(g, g', step)
    requires CreationMove(g, g', step)
    ensures PublishedInPlace(g')
  {
    if step.Act? {
      var p := step.pid;
      assert Accounts(g.fs, p, g.calls[p]);
      forall q <- g'.calls
        ensures Published(g'.fs, g'.calls[q])
      {
        if q == p {
          ActPublished(g.fs, p, g.calls[p], step.effect);
        } else {
          assert Accounts(g.fs, q, g.calls[q]);
          ActKeepsOthersPublished(g.fs, p, g.calls[p], step.effect, g.calls[q]);
        }
      }
    }
  }

  lemma {:induction false} PublishedAlways(states: seq<System>, steps: seq<Step>, k: nat)
    requires CreationRace(states, steps) && k < |states|
    ensures PublishedInPlace(states[k])
  {
    if k > 0 {
      PublishedAlways(states, steps, k - 1);
      InvAlways(states, steps, k - 1);
      assert CreationMove(states[k - 1], states[k], steps[k - 1]);
      PublishedStep(states[k - 1], states[k], steps[k - 1]);
    }
  }

  /** Of any number of calls that expect the target to be absent, at most one returns
      normally, and the file at the target is the one it created. */
  lemma AtMostOneCreates(states: seq<System>, steps: seq<Step>, p: Pid, q: Pid)
    requires CreationRace(states, steps)
    requires p in states[|steps|].calls && q in states[|steps|].calls
    requires states[|steps|].calls[p].returned && states[|steps|].calls[q].returned
    ensures p == q
    ensures Lookup(states[|steps|].fs, Target) == states[|steps|].calls[p].created
    ensures states[|steps|].calls[p].created.Some?
  {
    PublishedAlways(states, steps, |steps|);
    InvAlways(states, steps, |steps|);
    var g := states[|steps|];
    assert Won(g.calls[p]) && Won(g.calls[q]);
    assert Accounts(g.fs, p, g.calls[p]);
    assert p != q ==> Separate(g.calls[p], g.calls[q]);
  }

  // ---- nothing foreign is destroyed ----

  /** When the original may go: it was linked back, the unlink committed, or the replacement
      is in place and was twice seen at the target. */
  predicate MayGo(own: Own) {
    own.relinked || (own.settled && (own.role.Writer? ==> InPlace(own) && |own.validations| >= 2))
  }

  /** One step of a call: which file can lose its last name. */
  lemma StepDestroys(fs: Fs, p: Pid, own: Own, e: Effect, i: Inode)
    requires WellFormed(fs) && Accounts(fs, p, own) && Legal(own, e) && Enabled(fs, p, own.role, e)
    ensures LinkCount(fs, i) > 0 && LinkCount(Apply(fs, p, own.role, e), i) == 0 ==>
              && e.Erase? && e.inode == i
              && (own.created == Some(i)
                  || (e.kind == Quarantine(own.role) && own.expected == Some(i)
                      && own.captured == Some(i) && MayGo(own)))
  {
    DestinationsFree(fs, p, own, e);
    match e
    case Capture(_) => RenameKeepsCount(fs, Target, Private(p, Quarantine(own.role)), i);
    case Retract(_) => RenameKeepsCount(fs, Target, Private(p, Rollback), i);
    case Dispose(kind, _) => RenameKeepsCount(fs, Private(p, kind), Disposal(p, kind), i);
    case Install(_) => LinkAddsOne(fs, Private(p, Tmp), Target, i);
    case Relink(_) => LinkAddsOne(fs, Private(p, Quarantine(own.role)), Target, i);
    case Erase(kind, _) => UnlinkDropsOne(fs, Disposal(p, kind), i);
    case Create(j, _) => assert NamesOf(Apply(fs, p, own.role, e), i) >= NamesOf(fs, i);
    case _ =>
  }

  /**
    In every interleaving, the only files that lose their last name by a call's step are
    its own temporary file and the exact original it was planned against, and the
    original goes only after its replacement was linked and twice seen at the target
    (`ValidationsWereSeen`), its conditional unlink committed, or it was linked back to
    the target. No step changes the bytes or
    the mode of a file other than the call's own unpublished one.
   */
  lemma NothingForeignDestroyed(states: seq<System>, steps: seq<Step>, k: nat, i: Inode)
    requires Run(states, steps) && k < |steps| && steps[k].Act?
    ensures steps[k].pid in states[k].calls
    ensures var own := states[k].calls[steps[k].pid];
            LinkCount(states[k].fs, i) > 0 && LinkCount(states[k + 1].fs, i) == 0 ==>
              && steps[k].effect.Erase? && steps[k].effect.inode == i
              && (own.created == Some(i)
                  || (steps[k].effect.kind == Quarantine(own.role) && own.expected == Some(i)
                      && own.captured == Some(i) && MayGo(own)))
    ensures var own := states[k].calls[steps[k].pid];
            i in states[k].fs.files && i !in Unpublished(own) ==>
              i in states[k + 1].fs.files && states[k + 1].fs.files[i] == states[k].fs.files[i]
  {
    InvAlways(states, steps, k);
    var g, g', p, e := states[k], states[k + 1], steps[k].pid, steps[k].effect;
    assert Next(g, g', steps[k]);
    var own := g.calls[p];
    assert Accounts(g.fs, p, own);
    StepDestroys(g.fs, p, own, e, i);
  }

  /** Only a sight adds a validation, of the file that is at the target then, and only a look at a
      free path clears it; what was created stays. */
  lemma SightsAdd(fs: Fs, p: Pid, own: Own, e: Effect)
    requires Legal(own, e) && Enabled(fs, p, own.role, e)
    ensures var own' := Advance(own, e);
            && (if e.Sight? then own'.validations == own.validations + [e.file] else own'.validations == own.validations)
            && (own.created.Some? ==> own'.created == own.created)
            && (e.Sight? ==> own.created == Some(e.inode) && Lookup(fs, Target) == Some(e.inode) && LinkCount(fs, e.inode) == 2
                             && e.inode in fs.files && fs.files[e.inode] == e.file)
            && own'.cleared == own.cleared + (if e.SeeFree? then [e.name] else [])
            && (e.SeeFree? ==> e.name !in fs.names && (if own.role.Writer? then InPlace(own) && |own.validations| >= 2
                                                       else own.captured.Some? && own.captured == own.expected))
            && (own'.alone ==> own.alone || e.SeeAlone?)
            && (e.SeeAlone? ==> own.created == Some(e.inode) && Lookup(fs, Target) == Some(e.inode) && LinkCount(fs, e.inode) == 1)
  {
    match e
    case Sight(_, _) =>
    case SeeFree(_) =>
    case SeeAlone(_) =>
    case _ =>
  }

  /**
    A validation in a call's record is a fact about the run: at an earlier moment the target
    was bound to the file this call created, with exactly two names and the bytes and mode
    recorded.
   */
  lemma {:induction false} ValidationsWereSeen(states: seq<System>, steps: seq<Step>, k: nat, p: Pid, n: nat)
    returns (j: nat)
    requires Run(states, steps) && k < |states| && p in states[k].calls && n < |states[k].calls[p].validations|
    ensures j < k && steps[j].Act? && steps[j].pid == p && steps[j].effect.Sight?
    ensures var i, file := steps[j].effect.inode, states[k].calls[p].validations[n];
            && states[k].calls[p].created == Some(i) && Lookup(states[j].fs, Target) == Some(i)
            && LinkCount(states[j].fs, i) == 2 && i in states[j].fs.files && states[j].fs.files[i] == file
  {
    assert Next(states[k - 1], states[k], steps[k - 1]);
    var g, step := states[k - 1], steps[k - 1];
    if step.Act? && step.pid == p { SightsAdd(g.fs, p, g.calls[p], step.effect); }
    if step.Act? && step.pid == p && step.effect.Sight? && n == |g.calls[p].validations| {
      j := k - 1;
    } else {
      j := ValidationsWereSeen(states, steps, k - 1, p, n);
    }
  }

  /**
    So is a cleared path: at an earlier moment it did not exist, and by then the replacement was in
    place and twice validated, or the exact original captured for deletion.
   */
  lemma {:induction false} ClearedWereFree(states: seq<System>, steps: seq<Step>, k: nat, p: Pid, n: nat)
    returns (j: nat)
    requires Run(states, steps) && k < |states| && p in states[k].calls && n < |states[k].calls[p].cleared|
    ensures j < k && p in states[j].calls && states[k].calls[p].cleared[n] !in states[j].fs.names
    ensures var own := states[j].calls[p];
            if own.role.Writer? then InPlace(own) && |own.validations| >= 2 else own.captured.Some? && own.captured == own.expected
  {
    assert Next(states[k - 1], states[k], steps[k - 1]);
    var g, step := states[k - 1], steps[k - 1];
    if step.Act? && step.pid == p { SightsAdd(g.fs, p, g.calls[p], step.effect); }
    if step.Act? && step.pid == p && step.effect.SeeFree? && n == |g.calls[p].cleared| {
      j := k - 1;
    } else {
      j := ClearedWereFree(states, steps, k - 1, p, n);
    }
  }

  /** So is the last look of a call that returned with nothing left to clean up. */
  lemma {:induction false} AloneWasSeen(states: seq<System>, steps: seq<Step>, k: nat, p: Pid) returns (j: nat)
    requires Run(states, steps) && k < |states| && p in states[k].calls && states[k].calls[p].alone
    ensures j < k && states[k].calls[p].created.Some?
    ensures var i := states[k].calls[p].created.value;
            Lookup(states[j].fs, Target) == Some(i) && LinkCount(states[j].fs, i) == 1
  {
    assert Next(states[k - 1], states[k], steps[k - 1]);
    var g, step := states[k - 1], steps[k - 1];
    if step.Act? && step.pid == p { SightsAdd(g.fs, p, g.calls[p], step.effect); }
    if step.Act? && step.pid == p && step.effect.SeeAlone? {
      j := k - 1;
    } else {
      j := AloneWasSeen(states, steps, k - 1, p);
    }
  }

  /** A file captured by mistake keeps its quarantine name: no call that took a file other
      than the one it was planned against ever moves, removes or replaces it. */
  lemma WrongCaptureIsKept(states: seq<System>, steps: seq<Step>, k: nat, p: Pid)
    requires Run(states, steps) && k < |states| && p in states[k].calls
    ensures var own := states[k].calls[p];
            && (own.captured.Some? && own.captured != own.expected ==>
                  !own.returned && Lookup(states[k].fs, Private(p, Quarantine(own.role))) == own.captured)
            && (own.retracted.Some? && own.retracted != own.created ==>
                  Lookup(states[k].fs, Private(p, Rollback)) == own.retracted)
  {
    InvAlways(states, steps, k);
    var own := states[k].calls[p];
    assert Accounts(states[k].fs, p, own);
    assert NameAccounted(states[k].fs, p, own, Quarantine(own.role));
    assert NameAccounted(states[k].fs, p, own, Rollback);
  }

  // ---- what the record says about the target ----

  /** Where a lone call has left the target, `start` being the inode found there. */
  function TargetBy(own: Own, start: Option<Inode>): Option<Inode> {
    if InPlace(own) then own.created
    else if own.captured.Some? then (if own.relinked then own.captured else None)
    else start
  }

  /** One call; outsiders leave the target's binding alone. */
  ghost predicate LoneRun(states: seq<System>, steps: seq<Step>, p: Pid) {
    && Run(states, steps)
    && |steps| > 0 && steps[0].Start? && steps[0].pid == p
    && (forall k | 0 < k < |steps| :: !steps[k].Start?)
    && (forall k | 0 < k < |steps| && steps[k].Foreign? ::
          Lookup(states[k + 1].fs, Target) == Lookup(states[k].fs, Target))
  }

  ghost predicate Follows(fs: Fs, own: Own, start: Option<Inode>) {
    && Lookup(fs, Target) == TargetBy(own, start)
    && (own.captured.Some? ==> own.captured == start)
    && (own.installed && own.captured.None? ==> start.None?)
    && (own.confirmed && own.captured.Some? ==> own.relinked || InPlace(own))
  }

  lemma FollowsByRename(fs: Fs, p: Pid, own: Own, e: Effect, start: Option<Inode>)
    requires WellFormed(fs) && Accounts(fs, p, own) && Follows(fs, own, start)
    requires Legal(own, e) && Enabled(fs, p, own.role, e) && (e.Capture? || e.Retract?)
    ensures Follows(Apply(fs, p, own.role, e), Advance(own, e), start)
  {
    match e
    case Capture(_) =>
    case Retract(_) =>
  }

  lemma FollowsByLink(fs: Fs, p: Pid, own: Own, e: Effect, start: Option<Inode>)
    requires WellFormed(fs) && Accounts(fs, p, own) && Follows(fs, own, start)
    requires Legal(own, e) && Enabled(fs, p, own.role, e) && (e.Install? || e.Relink?)
    ensures Follows(Apply(fs, p, own.role, e), Advance(own, e), start)
  {
    assert NameAccounted(fs, p, own, Tmp);
    assert NameAccounted(fs, p, own, Quarantine(own.role));
    match e
    case Install(_) =>
    case Relink(_) =>
  }

  lemma ActFollows(fs: Fs, p: Pid, own: Own, e: Effect, start: Option<Inode>)
    requires WellFormed(fs) && Accounts(fs, p, own) && Follows(fs, own, start)
    requires Legal(own, e) && Enabled(fs, p, own.role, e)
    ensures Follows(Apply(fs, p, own.role, e), Advance(own, e), start)
  {
    match e
    case Capture(_) | Retract(_) => FollowsByRename(fs, p, own, e, start);
    case Install(_) | Relink(_) => FollowsByLink(fs, p, own, e, start);
    case Create(_, _) =>
    case Confirm(_) =>
    case _ => InwardKeeps(fs, p, own, e);
  }

  lemma {:induction false} LoneFollows(states: seq<System>, steps: seq<Step>, k: nat, p: Pid)
    requires LoneRun(states, steps, p) && 0 < k < |states|
    ensures states[k].calls.Keys == {p} && Accounted(states[k])
    ensures Follows(states[k].fs, states[k].calls[p], Lookup(states[0].fs, Target))
  {
    var g, g', step := states[k - 1], states[k], steps[k - 1];
    assert Next(g, g', step);
    if k == 1 {
      AccountedStep(g, g', step);
    } else {
      LoneFollows(states, steps, k - 1, p);
      AccountedStep(g, g', step);
      FollowsStep(g, g', step, p, Lookup(states[0].fs, Target));
    }
  }

  lemma FollowsStep(g: System, g': System, step: Step, p: Pid, start: Option<Inode>)
    requires Accounted(g) && g.calls.Keys == {p} && Follows(g.fs, g.calls[p], start)
    requires Next(g, g', step) && !step.Start? && (step.Foreign? ==> Lookup(g'.fs, Target) == Lookup(g.fs, Target))
    ensures g'.calls.Keys == {p} && Follows(g'.fs, g'.calls[p], start)
  {
    if step.Act? {
      assert Accounts(g.fs, p, g.calls[p]);
      ActFollows(g.fs, p, g.calls[p], step.effect, start);
    }
  }

  /**
    The error class tells the truth about the directory. Whatever fails on the way, as
    long as nobody else binds the target: a call whose record is that of an ordinary
    failure leaves the target bound to the file it started with; one whose replacement
    is in place leaves it bound to the new file; and one that displaced the original and
    did not link it back leaves it unbound.
   */
  lemma RecordTellsTarget(states: seq<System>, steps: seq<Step>, k: nat, p: Pid)
    requires LoneRun(states, steps, p) && 0 < k < |states|
    ensures p in states[k].calls
    ensures var own, start, now := states[k].calls[p], Lookup(states[0].fs, Target), Lookup(states[k].fs, Target);
            && (!InPlace(own) && (own.captured.None? || own.confirmed) ==> now == start)
            && (InPlace(own) ==> own.created.Some? && now == own.created && now != start)
            && (!InPlace(own) && own.captured.Some? && !own.relinked ==> now == None && start.Some? && !own.confirmed)
  {
    LoneFollows(states, steps, k, p);
    InvAlways(states, steps, k);
    var own := states[k].calls[p];
    assert Accounts(states[k].fs, p, own);
    assert OffTarget(states[k].fs, own);
  }
}
