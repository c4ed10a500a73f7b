/**
  What `readPendingAtomicMutation` sees while one conditional call is under way
  (src/agent-file/atomic-write.ts:429-494).
 */
module AtomicPending {
  import opened Options
  import opened AtomicProtocol
  import opened AtomicRace

  /** The two name patterns: `.<base>.<uuid>.(deleted|previous|rollback)` and the same
      artifact under its `.cleanup` name. */
  predicate IsQuarantine(n: Name) {
    (n.Private? || n.Disposal?) && n.kind != Tmp
  }

  datatype Pending =
    | NoPending
    | Found(kind: Kind, snapshot: Snapshot)
    | Multiple        // CONFLICT: several quarantines for one target
    | NotSingleLink   // SECURITY_REJECTION: the quarantine has another link

  function QuarantineNames(fs: Fs): set<Name> {
    set n | n in fs.names && IsQuarantine(n)
  }

  ghost function ReadPending(fs: Fs): Pending
    requires WellFormed(fs)
  {
    var matches := QuarantineNames(fs);
    if matches == {} then NoPending
    else if |matches| != 1 then Multiple
    else
      var n :| n in matches;
      var artifact := Observe(fs, n).value;
      if artifact.links != 1 then NotSingleLink else Found(n.kind, artifact.snapshot)
  }

  /** Where the file of kind `k` is while it still has a name. */
  function Place(p: Pid, own: Own, k: Kind): Name {
    if k in own.disposed then Disposal(p, k) else Private(p, k)
  }

  predicate Displaced(own: Own) {
    own.captured.Some? && Quarantine(own.role) !in own.erased
  }

  predicate RollingBack(own: Own) {
    own.retracted.Some? && Rollback !in own.erased
  }

  /** The verdict predicted from the call's own record, `rollback` being the replacement as it
      looks now. */
  function Predicted(own: Own, original: Snapshot, rollback: Option<Snapshot>): Pending {
    if Displaced(own) then
      if RollingBack(own) then Multiple
      else if own.relinked then NotSingleLink
      else Found(Quarantine(own.role), original)
    else if RollingBack(own) && rollback.Some? then
      if Tmp in own.erased then Found(Rollback, rollback.value) else NotSingleLink
    else NoPending
  }

  /** One call planned against the singly linked file `original`; outsiders leave the
      target and the call's files alone. */
  ghost predicate SoloRun(states: seq<System>, steps: seq<Step>, p: Pid, role: Role, original: Snapshot) {
    && Run(states, steps)
    && Observe(states[0].fs, Target) == Some(Artifact(original, 1))
    && |steps| > 0 && steps[0] == Start(p, role, Some(original.inode))
    && (forall k | 0 < k < |steps| :: !steps[k].Start?)
    && (forall k | 0 < k < |steps| && steps[k].Foreign? ::
          WellFormed(states[k].fs) && WellFormed(states[k + 1].fs) && Apart(p, states[k].fs, states[k + 1].fs))
  }

  /** The original is where the record says it is, unchanged. */
  ghost predicate OriginalKept(fs: Fs, p: Pid, own: Own, original: Snapshot)
    requires WellFormed(fs)
  {
    && own.expected == Some(original.inode)
    && (own.created != Some(original.inode))
    && original.inode in fs.files
    && (own.captured.None? ==> Observe(fs, Target) == Some(Artifact(original, 1)))
    && (own.captured.Some? ==> own.captured == Some(original.inode))
    && (Displaced(own) ==>
          Observe(fs, Place(p, own, Quarantine(own.role))) == Some(Artifact(original, if own.relinked then 2 else 1)))
  }

  lemma OriginalKeptByRename(fs: Fs, p: Pid, own: Own, e: Effect, original: Snapshot)
    requires WellFormed(fs) && Accounts(fs, p, own) && OriginalKept(fs, p, own, original)
    requires Legal(own, e) && Enabled(fs, p, own.role, e) && (e.Capture? || e.Retract? || e.Dispose?)
    ensures WellFormed(Apply(fs, p, own.role, e))
    ensures OriginalKept(Apply(fs, p, own.role, e), p, Advance(own, e), original)
  {
    StepKeepsAccounts(fs, p, own, e);
    DestinationsFree(fs, p, own, e);
    var i, q := original.inode, Quarantine(own.role);
    assert NameAccounted(fs, p, own, q) && NameAccounted(fs, p, own, Tmp) && NameAccounted(fs, p, own, Rollback);
    match e
    case Capture(_) => RenameKeepsCount(fs, Target, Private(p, q), i);
    case Retract(_) => RenameKeepsCount(fs, Target, Private(p, Rollback), i);
    case Dispose(kind, _) => RenameKeepsCount(fs, Private(p, kind), Disposal(p, kind), i);
  }

  lemma OriginalKeptByLink(fs: Fs, p: Pid, own: Own, e: Effect, original: Snapshot)
    requires WellFormed(fs) && Accounts(fs, p, own) && OriginalKept(fs, p, own, original)
    requires Legal(own, e) && Enabled(fs, p, own.role, e) && (e.Install? || e.Relink? || e.Erase?)
    ensures WellFormed(Apply(fs, p, own.role, e))
    ensures OriginalKept(Apply(fs, p, own.role, e), p, Advance(own, e), original)
  {
    StepKeepsAccounts(fs, p, own, e);
    DestinationsFree(fs, p, own, e);
    var i, q := original.inode, Quarantine(own.role);
    assert NameAccounted(fs, p, own, q) && NameAccounted(fs, p, own, Tmp) && NameAccounted(fs, p, own, Rollback);
    match e
    case Install(_) => LinkAddsOne(fs, Private(p, Tmp), Target, i);
    case Relink(_) => LinkAddsOne(fs, Private(p, q), Target, i);
    case Erase(kind, _) =>
      assert NameAccounted(fs, p, own, kind);
      UnlinkDropsOne(fs, Disposal(p, kind), i);
  }

  lemma OriginalKeptByStep(fs: Fs, p: Pid, own: Own, e: Effect, original: Snapshot)
    requires WellFormed(fs) && Accounts(fs, p, own) && OriginalKept(fs, p, own, original)
    requires Legal(own, e) && Enabled(fs, p, own.role, e)
    ensures WellFormed(Apply(fs, p, own.role, e))
    ensures OriginalKept(Apply(fs, p, own.role, e), p, Advance(own, e), original)
  {
    if e.Capture? || e.Retract? || e.Dispose? {
      OriginalKeptByRename(fs, p, own, e, original);
    } else if e.Install? || e.Relink? || e.Erase? {
      OriginalKeptByLink(fs, p, own, e, original);
    } else {
      StepKeepsAccounts(fs, p, own, e);
      assert NameAccounted(fs, p, own, Quarantine(own.role)) && NameAccounted(fs, p, own, Tmp);
      assert e.Create? ==> NamesOf(Apply(fs, p, own.role, e), original.inode) == NamesOf(fs, original.inode);
    }
  }

  lemma OriginalKeptByOthers(fs: Fs, fs': Fs, p: Pid, own: Own, original: Snapshot)
    requires WellFormed(fs) && WellFormed(fs') && OriginalKept(fs, p, own, original)
    requires fs.files.Keys <= fs'.files.Keys && Apart(p, fs, fs')
    ensures OriginalKept(fs', p, own, original)
  {
    var place := Place(p, own, Quarantine(own.role));
    ApartObserves(p, fs, fs', Target);
    ApartObserves(p, fs, fs', place);
  }

  ghost predicate SoloState(g: System, p: Pid, role: Role, original: Snapshot) {
    && Accounted(g)
    && g.calls.Keys == {p}
    && g.calls[p].role == role
    && OriginalKept(g.fs, p, g.calls[p], original)
    && Counted(g.fs, g.calls[p])
  }

  lemma SoloStep(g: System, g': System, step: Step, p: Pid, role: Role, original: Snapshot)
    requires SoloState(g, p, role, original) && Next(g, g', step) && !step.Start?
    requires step.Foreign? ==> WellFormed(g'.fs) && Apart(p, g.fs, g'.fs)
    ensures SoloState(g', p, role, original)
  {
    AccountedStep(g, g', step);
    assert Accounts(g.fs, p, g.calls[p]);
    if step.Act? {
      assert step.pid == p;
      OriginalKeptByStep(g.fs, p, g.calls[p], step.effect, original);
      StepKeepsCounted(g.fs, p, g.calls[p], step.effect);
    } else {
      OriginalKeptByOthers(g.fs, g'.fs, p, g.calls[p], original);
      ApartKeepsCounted(p, g.fs, g'.fs, g.calls[p]);
    }
  }

  lemma {:induction false} SoloAlways(states: seq<System>, steps: seq<Step>, k: nat,
                                      p: Pid, role: Role, original: Snapshot)
    requires SoloRun(states, steps, p, role, original) && 0 < k < |states|
    ensures SoloState(states[k], p, role, original)
  {
    assert Next(states[k - 1], states[k], steps[k - 1]);
    if k == 1 {
      AccountedStep(states[0], states[1], steps[0]);
    } else {
      SoloAlways(states, steps, k - 1, p, role, original);
      SoloStep(states[k - 1], states[k], steps[k - 1], p, role, original);
    }
  }

  /** The quarantine names in the directory, in terms of the call's record. */
  lemma QuarantineNamesAre(g: System, p: Pid)
    requires Accounted(g) && g.calls.Keys == {p}
    ensures var own := g.calls[p];
            QuarantineNames(g.fs) ==
              (if Displaced(own) then {Place(p, own, Quarantine(own.role))} else {})
              + (if RollingBack(own) then {Place(p, own, Rollback)} else {})
  {
    var own := g.calls[p];
    assert Accounts(g.fs, p, own);
    forall n: Name | IsQuarantine(n)
      ensures n in g.fs.names <==>
              || (Displaced(own) && n == Place(p, own, Quarantine(own.role)))
              || (RollingBack(own) && n == Place(p, own, Rollback))
    {
      if n.owner == p {
        assert NameAccounted(g.fs, p, own, n.kind);
      }
    }
  }

  /** What the call itself created, as it looks now. */
  function CreatedNow(fs: Fs, own: Own): Option<Snapshot> {
    if own.created.Some? && own.created.value in fs.files then Some(SnapshotOf(fs, own.created.value)) else None
  }

  /** A single quarantine name decides the verdict. */
  lemma OnePending(fs: Fs, n: Name)
    requires WellFormed(fs) && QuarantineNames(fs) == {n}
    ensures n in fs.names
    ensures var a := Observe(fs, n).value;
            ReadPending(fs) == if a.links != 1 then NotSingleLink else Found(n.kind, a.snapshot)
  {
    assert n in QuarantineNames(fs);
  }

  lemma RollbackPending(g: System, p: Pid, role: Role, original: Snapshot)
    requires SoloState(g, p, role, original) && !Displaced(g.calls[p]) && RollingBack(g.calls[p])
    ensures ReadPending(g.fs) == Predicted(g.calls[p], original, CreatedNow(g.fs, g.calls[p]))
  {
    var own := g.calls[p];
    QuarantineNamesAre(g, p);
    assert Accounts(g.fs, p, own) && NameAccounted(g.fs, p, own, Rollback);
    OnePending(g.fs, Place(p, own, Rollback));
  }

  lemma OriginalPending(g: System, p: Pid, role: Role, original: Snapshot)
    requires SoloState(g, p, role, original) && Displaced(g.calls[p])
    ensures ReadPending(g.fs) == Predicted(g.calls[p], original, CreatedNow(g.fs, g.calls[p]))
  {
    var own := g.calls[p];
    QuarantineNamesAre(g, p);
    var matches, place := QuarantineNames(g.fs), Place(p, own, Quarantine(role));
    if RollingBack(own) {
      assert place != Place(p, own, Rollback);
      assert |matches| == 2;
    } else {
      OnePending(g.fs, place);
    }
  }

  /**
    Every intermediate state is recognisable. Stopped after any step, a lone conditional
    update or unlink of a singly linked file shows exactly one artifact, of its own kind
    and holding the original snapshot, precisely from the quarantine rename until the
    final unlink of the disposal name, outside two windows: while the original is linked
    back it has two links and is refused, and while the replacement is being taken back
    there are two quarantines. When the original is in no quarantine, nothing is found
    exactly when the replacement is not under its rollback name either; if it is, it is
    refused while the temporary name still exists and found as a rollback once it is gone.
   */
  lemma EveryStateIsRecognisable(states: seq<System>, steps: seq<Step>, k: nat,
                                 p: Pid, role: Role, original: Snapshot)
    requires SoloRun(states, steps, p, role, original) && 0 < k < |states|
    ensures WellFormed(states[k].fs) && p in states[k].calls && states[k].calls[p].role == role
    ensures var own := states[k].calls[p];
            && ReadPending(states[k].fs) == Predicted(own, original, CreatedNow(states[k].fs, own))
            && (ReadPending(states[k].fs) == NoPending <==> !Displaced(own) && !RollingBack(own))
            && (RollingBack(own) ==> own.retracted == own.created && CreatedNow(states[k].fs, own).Some?)
  {
    SoloAlways(states, steps, k, p, role, original);
    var g := states[k];
    var own := g.calls[p];
    assert Accounts(g.fs, p, own) && NameAccounted(g.fs, p, own, Rollback);
    if Displaced(own) {
      OriginalPending(g, p, role, original);
    } else if RollingBack(own) {
      RollbackPending(g, p, role, original);
    } else {
      QuarantineNamesAre(g, p);
    }
  }

  // ---- a state where only the rollback artifact remains ----

  /** A run and one more step of call `p`. */
  lemma OneMoreAct(states: seq<System>, steps: seq<Step>, p: Pid, e: Effect)
    requires Run(states, steps)
    requires var g := states[|steps|];
             p in g.calls && Legal(g.calls[p], e) && Enabled(g.fs, p, g.calls[p].role, e)
    ensures var g := states[|steps|];
            var g' := System(Apply(g.fs, p, g.calls[p].role, e), g.calls[p := Advance(g.calls[p], e)]);
            Run(states + [g'], steps + [Act(p, e)])
  {
    var g := states[|steps|];
    var g' := System(Apply(g.fs, p, g.calls[p].role, e), g.calls[p := Advance(g.calls[p], e)]);
    var s, t := states + [g'], steps + [Act(p, e)];
    forall k | 0 <= k < |t| ensures Next(s[k], s[k + 1], t[k]) {
      if k < |steps| { assert Next(states[k], states[k + 1], steps[k]); }
    }
  }

  /** The run of the example below: the effects played from one starting directory. */
  ghost predicate Plays(states: seq<System>, steps: seq<Step>, p: Pid, original: File, own: Own, names: map<Name, Inode>, replacement: File) {
    && Run(states, steps) && |steps| > 0
    && states[0] == System(Fs(map[Target := 0], map[0 := original], 1), map[])
    && steps[0] == Start(p, Writer, Some(0)) && (forall k | 0 < k < |steps| :: steps[k].Act?)
    && states[|steps|] == System(Fs(names, map[0 := original, 1 := replacement], 2), map[p := own])
  }

  lemma PlayOn(states: seq<System>, steps: seq<Step>, p: Pid, original: File, own: Own, names: map<Name, Inode>,
               replacement: File, e: Effect, own': Own, names': map<Name, Inode>)
    returns (states': seq<System>, steps': seq<Step>)
    requires Plays(states, steps, p, original, own, names, replacement) && own.role == Writer && !e.Create? && !e.Write?
    requires var fs := Fs(names, map[0 := original, 1 := replacement], 2);
             Legal(own, e) && Enabled(fs, p, Writer, e) && Apply(fs, p, Writer, e).names == names' && Advance(own, e) == own'
    ensures Plays(states', steps', p, original, own', names', replacement)
  {
    OneMoreAct(states, steps, p, e);
    var g := states[|steps|];
    states', steps' := states + [System(Apply(g.fs, p, Writer, e), g.calls[p := Advance(own, e)])], steps + [Act(p, e)];
  }

  lemma PlayStart(p: Pid, original: File, replacement: File) returns (states: seq<System>, steps: seq<Step>)
    ensures Plays(states, steps, p, original, Made(),
                  map[Target := 0, Private(p, Tmp) := 1], replacement)
  {
    var g0 := System(Fs(map[Target := 0], map[0 := original], 1), map[]);
    var g1 := g0.(calls := map[p := Begin(Writer, Some(0))]);
    var start := Start(p, Writer, Some(0));
    assert Next(g0, g1, start);
    assert Run([g0, g1], [start]);
    OneMoreAct([g0, g1], [start], p, Create(1, replacement));
    var g2 := System(Fs(map[Target := 0, Private(p, Tmp) := 1], map[0 := original, 1 := replacement], 2),
                     map[p := Begin(Writer, Some(0)).(created := Some(1))]);
    assert g2 == System(Apply(g1.fs, p, Writer, Create(1, replacement)), g1.calls[p := Advance(g1.calls[p], Create(1, replacement))]);
    states, steps := [g0, g1] + [g2], [start] + [Act(p, Create(1, replacement))];
  }

  /** The records of the example: the replacement prepared, installed, and given up again. */
  function Made(): Own { Begin(Writer, Some(0)).(created := Some(1)) }
  function Taken(): Own { Made().(captured := Some(0), installed := true) }
  function Back(): Own { Taken().(retracted := Some(1), relinked := true) }

  /** Quarantine and link. */
  lemma Installing(states: seq<System>, steps: seq<Step>, p: Pid, original: File, replacement: File)
    returns (states': seq<System>, steps': seq<Step>)
    requires Plays(states, steps, p, original, Made(), map[Target := 0, Private(p, Tmp) := 1], replacement)
    ensures Plays(states', steps', p, original, Taken(), map[Private(p, Tmp) := 1, Private(p, Previous) := 0, Target := 1], replacement)
  {
    var own := Made();
    states', steps' := PlayOn(states, steps, p, original, own, map[Target := 0, Private(p, Tmp) := 1],
                              replacement, Capture(0), Made().(captured := Some(0)), map[Private(p, Tmp) := 1, Private(p, Previous) := 0]);
    states', steps' := PlayOn(states', steps', p, original, Made().(captured := Some(0)), map[Private(p, Tmp) := 1, Private(p, Previous) := 0],
                              replacement, Install(1), Taken(), map[Private(p, Tmp) := 1, Private(p, Previous) := 0, Target := 1]);
  }

  /** Rollback and restore. */
  lemma GivingBack(states: seq<System>, steps: seq<Step>, p: Pid, original: File, replacement: File)
    returns (states': seq<System>, steps': seq<Step>)
    requires Plays(states, steps, p, original, Taken(), map[Private(p, Tmp) := 1, Private(p, Previous) := 0, Target := 1], replacement)
    ensures Plays(states', steps', p, original, Back(), map[Private(p, Tmp) := 1, Private(p, Previous) := 0, Private(p, Rollback) := 1, Target := 0], replacement)
  {
    var own := Taken();
    states', steps' := PlayOn(states, steps, p, original, own, map[Private(p, Tmp) := 1, Private(p, Previous) := 0, Target := 1],
                              replacement, Retract(1), Taken().(retracted := Some(1)), map[Private(p, Tmp) := 1, Private(p, Previous) := 0, Private(p, Rollback) := 1]);
    states', steps' := PlayOn(states', steps', p, original, Taken().(retracted := Some(1)), map[Private(p, Tmp) := 1, Private(p, Previous) := 0, Private(p, Rollback) := 1],
                              replacement, Relink(0), Back(), map[Private(p, Tmp) := 1, Private(p, Previous) := 0, Private(p, Rollback) := 1, Target := 0]);
  }

  /** The original's quarantine name goes. */
  lemma DroppingOriginal(states: seq<System>, steps: seq<Step>, p: Pid, original: File, replacement: File)
    returns (states': seq<System>, steps': seq<Step>)
    requires Plays(states, steps, p, original, Back(), map[Private(p, Tmp) := 1, Private(p, Previous) := 0, Private(p, Rollback) := 1, Target := 0], replacement)
    ensures Plays(states', steps', p, original, Back().(disposed := {Previous}, erased := {Previous}), map[Private(p, Tmp) := 1, Private(p, Rollback) := 1, Target := 0], replacement)
  {
    var own := Back();
    states', steps' := PlayOn(states, steps, p, original, own, map[Private(p, Tmp) := 1, Private(p, Previous) := 0, Private(p, Rollback) := 1, Target := 0],
                              replacement, Dispose(Previous, 0), Back().(disposed := {Previous}), map[Private(p, Tmp) := 1, Disposal(p, Previous) := 0, Private(p, Rollback) := 1, Target := 0]);
    states', steps' := PlayOn(states', steps', p, original, Back().(disposed := {Previous}), map[Private(p, Tmp) := 1, Disposal(p, Previous) := 0, Private(p, Rollback) := 1, Target := 0],
                              replacement, Erase(Previous, 0), Back().(disposed := {Previous}, erased := {Previous}), map[Private(p, Tmp) := 1, Private(p, Rollback) := 1, Target := 0]);
  }

  /** The temporary name goes. */
  lemma DroppingTemporary(states: seq<System>, steps: seq<Step>, p: Pid, original: File, replacement: File)
    returns (states': seq<System>, steps': seq<Step>)
    requires Plays(states, steps, p, original, Back().(disposed := {Previous}, erased := {Previous}), map[Private(p, Tmp) := 1, Private(p, Rollback) := 1, Target := 0], replacement)
    ensures Plays(states', steps', p, original, Back().(disposed := {Previous, Tmp}, erased := {Previous, Tmp}), map[Private(p, Rollback) := 1, Target := 0], replacement)
  {
    var own := Back().(disposed := {Previous}, erased := {Previous});
    states', steps' := PlayOn(states, steps, p, original, own, map[Private(p, Tmp) := 1, Private(p, Rollback) := 1, Target := 0],
                              replacement, Dispose(Tmp, 1), Back().(disposed := {Previous, Tmp}, erased := {Previous}), map[Disposal(p, Tmp) := 1, Private(p, Rollback) := 1, Target := 0]);
    states', steps' := PlayOn(states', steps', p, original, Back().(disposed := {Previous, Tmp}, erased := {Previous}), map[Disposal(p, Tmp) := 1, Private(p, Rollback) := 1, Target := 0],
                              replacement, Erase(Tmp, 1), Back().(disposed := {Previous, Tmp}, erased := {Previous, Tmp}), map[Private(p, Rollback) := 1, Target := 0]);
  }

  /**
    The interval of the original does not bound the artifacts: an update that took its replacement
    back, could not clean it up and restored the original leaves a quarantine behind, found as a
    rollback once the temporary name is gone.
   */
  lemma RollbackOutlivesTheOriginal(p: Pid, original: File, replacement: File)
    returns (states: seq<System>, steps: seq<Step>)
    ensures SoloRun(states, steps, p, Writer, Snapshot(0, original.content, original.mode))
    ensures var g := states[|steps|];
            && p in g.calls && !Displaced(g.calls[p]) && RollingBack(g.calls[p]) && WellFormed(g.fs)
            && ReadPending(g.fs) == Found(Rollback, Snapshot(1, replacement.content, replacement.mode))
  {
    states, steps := PlayStart(p, original, replacement);
    states, steps := Installing(states, steps, p, original, replacement);
    states, steps := GivingBack(states, steps, p, original, replacement);
    states, steps := DroppingOriginal(states, steps, p, original, replacement);
    states, steps := DroppingTemporary(states, steps, p, original, replacement);
    PlayedAlone(states, steps, p, original, Back().(disposed := {Previous, Tmp}, erased := {Previous, Tmp}),
                map[Private(p, Rollback) := 1, Target := 0], replacement);
    EveryStateIsRecognisable(states, steps, |steps|, p, Writer, Snapshot(0, original.content, original.mode));
  }

  lemma PlayedAlone(states: seq<System>, steps: seq<Step>, p: Pid, original: File, own: Own, names: map<Name, Inode>,
                    replacement: File)
    requires Plays(states, steps, p, original, own, names, replacement)
    ensures SoloRun(states, steps, p, Writer, Snapshot(0, original.content, original.mode))
  {
    assert NamesOf(states[0].fs, 0) == {Target};
  }
}
