/**
  From one call's execution to the interleaved machine: a call keeps a trace of its own effects
  and of the moves of the rest of the world, and such a trace, the rest of the world moving as the
  machine allows, is a run of the machine in which the call's record is the one it ended with.
 */
module AtomicTrace {
  import opened Options
  import opened AtomicProtocol
  import opened AtomicRace

  /** The directory and the call's record before a move, and the call's effect; None is a move of the world. */
  datatype Moment = Moment(fs: Fs, own: Own, effect: Option<Effect>)

  /** What `m` leads to. */
  ghost predicate Leads(p: Pid, m: Moment, fs: Fs, own: Own) {
    if m.effect.None? then own == m.own && Rely(p, m.fs, fs)
    else
      var e := m.effect.value;
      && Legal(m.own, e) && Enabled(m.fs, p, m.own.role, e)
      && fs == Apply(m.fs, p, m.own.role, e) && own == Advance(m.own, e)
  }

  function FsAt(trace: seq<Moment>, fs: Fs, i: nat): Fs
    requires i <= |trace|
  {
    if i < |trace| then trace[i].fs else fs
  }

  function OwnAt(trace: seq<Moment>, own: Own, i: nat): Own
    requires i <= |trace|
  {
    if i < |trace| then trace[i].own else own
  }

  ghost predicate MomentOk(p: Pid, trace: seq<Moment>, fs: Fs, own: Own, i: nat)
    requires i < |trace|
  {
    Leads(p, trace[i], FsAt(trace, fs, i + 1), OwnAt(trace, own, i + 1))
  }

  /** The trace leads from the directory `origin` and the record `begun` to `fs` and `own`. */
  ghost predicate Traced(p: Pid, origin: Fs, begun: Own, trace: seq<Moment>, fs: Fs, own: Own) {
    && FsAt(trace, fs, 0) == origin && OwnAt(trace, own, 0) == begun
    && forall i: nat {:trigger MomentOk(p, trace, fs, own, i)} | i < |trace| :: MomentOk(p, trace, fs, own, i)
  }

  lemma TraceGrows(p: Pid, origin: Fs, begun: Own, trace: seq<Moment>, m: Moment, fs: Fs, own: Own)
    requires Traced(p, origin, begun, trace, m.fs, m.own) && Leads(p, m, fs, own)
    ensures Traced(p, origin, begun, trace + [m], fs, own)
  {
    var more := trace + [m];
    forall i: nat | i < |more| ensures MomentOk(p, more, fs, own, i) {
      if i < |trace| { assert MomentOk(p, trace, m.fs, m.own, i); }
    }
  }

  // ---- the surrounding machine ----

  ghost predicate StepOf(step: Step, p: Pid) {
    (step.Act? || step.Start?) && step.pid == p
  }

  /** The machine gets from `g` to `g'` by steps of others, in a creation race if `creating`. */
  ghost predicate OthersMove(g: System, g': System, p: Pid, creating: bool, states: seq<System>, steps: seq<Step>) {
    && |states| == |steps| + 1 && states[0] == g && states[|steps|] == g'
    && (forall k | 0 <= k < |steps| :: Next(states[k], states[k + 1], steps[k]) && !StepOf(steps[k], p))
    && (creating ==> forall k | 0 <= k < |steps| :: CreationMove(states[k], states[k + 1], steps[k]))
  }

  ghost predicate MovedByOthers(g: System, g': System, p: Pid, creating: bool) {
    exists states, steps :: OthersMove(g, g', p, creating, states, steps)
  }

  /** A run, and a creation race if `creating`. */
  ghost predicate RunOf(creating: bool, states: seq<System>, steps: seq<Step>) {
    if creating then CreationRace(states, steps) else Run(states, steps)
  }

  lemma {:induction false} OthersKeepRecord(g: System, g': System, p: Pid, states: seq<System>, steps: seq<Step>)
    requires OthersMove(g, g', p, false, states, steps) && p in g.calls
    ensures p in g'.calls && g'.calls[p] == g.calls[p]
    decreases |steps|
  {
    if steps != [] {
      assert Next(states[0], states[1], steps[0]) && !StepOf(steps[0], p);
      assert states[1].calls[p] == g.calls[p];
      forall k | 0 <= k < |steps[1..]|
        ensures Next(states[1..][k], states[1..][k + 1], steps[1..][k]) && !StepOf(steps[1..][k], p)
      {
        assert Next(states[k + 1], states[k + 2], steps[k + 1]);
      }
      OthersKeepRecord(states[1], g', p, states[1..], steps[1..]);
    }
  }

  lemma RunGoesOn(creating: bool, states: seq<System>, steps: seq<Step>, more: seq<System>, later: seq<Step>)
    requires RunOf(creating, states, steps) && |more| == |later| + 1 && more[0] == states[|steps|]
    requires forall k | 0 <= k < |later| :: Next(more[k], more[k + 1], later[k])
    requires creating ==> forall k | 0 <= k < |later| :: CreationMove(more[k], more[k + 1], later[k])
    ensures RunOf(creating, states + more[1..], steps + later) && (states + more[1..])[|steps + later|] == more[|later|]
  {
    var s, t := states + more[1..], steps + later;
    forall k | 0 <= k < |t| ensures Next(s[k], s[k + 1], t[k]) && (creating ==> CreationMove(s[k], s[k + 1], t[k])) {
      JoinedAt(states, steps, more, later, k);
      if k < |steps| {
        assert Next(states[k], states[k + 1], steps[k]);
        assert creating ==> CreationMove(states[k], states[k + 1], steps[k]);
      } else {
        var j := k - |steps|;
        assert Next(more[j], more[j + 1], later[j]);
        assert creating ==> CreationMove(more[j], more[j + 1], later[j]);
      }
    }
  }

  /** Where step `k` of the prolonged run comes from. */
  lemma JoinedAt(states: seq<System>, steps: seq<Step>, more: seq<System>, later: seq<Step>, k: nat)
    requires |states| == |steps| + 1 && |more| == |later| + 1 && more[0] == states[|steps|] && k < |steps + later|
    ensures var s, t := states + more[1..], steps + later;
            if k < |steps| then s[k] == states[k] && s[k + 1] == states[k + 1] && t[k] == steps[k]
            else s[k] == more[k - |steps|] && s[k + 1] == more[k - |steps| + 1] && t[k] == later[k - |steps|]
  {
  }

  /**
    `at[i]` is the whole machine at moment `i` of the trace: where the world moved, it was by
    steps of others; where the call acted, only the directory and its own record changed.
   */
  ghost predicate Surrounds(at: seq<System>, p: Pid, creating: bool, trace: seq<Moment>, fs: Fs) {
    && |at| == |trace| + 1
    && (forall i: nat | i <= |trace| :: at[i].fs == FsAt(trace, fs, i))
    && (forall i: nat | i < |trace| :: SurroundedAt(at, p, creating, trace, i))
  }

  ghost predicate SurroundedAt(at: seq<System>, p: Pid, creating: bool, trace: seq<Moment>, i: nat)
    requires |at| == |trace| + 1 && i < |trace|
  {
    if trace[i].effect.None? then MovedByOthers(at[i], at[i + 1], p, creating)
    else p in at[i].calls && at[i + 1].calls == at[i].calls[p := Advance(at[i].calls[p], trace[i].effect.value)]
  }

  /** One moment of the trace prolongs the run. */
  lemma RunOneMore(creating: bool, states: seq<System>, steps: seq<Step>, g': System, p: Pid, m: Moment, fs: Fs, own: Own)
    returns (states': seq<System>, steps': seq<Step>)
    requires RunOf(creating, states, steps) && Leads(p, m, fs, own) && g'.fs == fs
    requires var g := states[|steps|]; g.fs == m.fs && p in g.calls && g.calls[p] == m.own
    requires var g := states[|steps|];
             if m.effect.None? then MovedByOthers(g, g', p, creating)
             else g'.calls == g.calls[p := Advance(g.calls[p], m.effect.value)]
    ensures RunOf(creating, states', steps') && states'[|steps'|] == g' && p in g'.calls && g'.calls[p] == own
  {
    var g := states[|steps|];
    if m.effect.None? {
      var more, later :| OthersMove(g, g', p, creating, more, later);
      OthersKeepRecord(g, g', p, more, later);
      RunGoesOn(creating, states, steps, more, later);
      states', steps' := states + more[1..], steps + later;
    } else {
      var step := Act(p, m.effect.value);
      assert Next(g, g', step);
      RunGoesOn(creating, states, steps, [g, g'], [step]);
      states', steps' := states + [g, g'][1..], steps + [step];
    }
  }

  /**
    An execution is a run: if a run has reached the start of a call and the world around the call
    moves as the machine allows, then some run reaches its end, with the record the call ended with;
    and it is a creation race if only creations compete with the call.
   */
  lemma {:induction false} TraceIsRun(creating: bool, states: seq<System>, steps: seq<Step>, at: seq<System>, p: Pid, origin: Fs,
                                      begun: Own, trace: seq<Moment>, fs: Fs, own: Own)
    returns (states': seq<System>, steps': seq<Step>)
    requires RunOf(creating, states, steps) && Traced(p, origin, begun, trace, fs, own)
    requires Surrounds(at, p, creating, trace, fs)
    requires states[|steps|] == at[0] && p in at[0].calls && at[0].calls[p] == begun
    ensures RunOf(creating, states', steps') && states'[|steps'|] == at[|trace|]
    ensures at[|trace|].fs == fs && p in at[|trace|].calls && at[|trace|].calls[p] == own
    decreases |trace|
  {
    if trace == [] {
      states', steps' := states, steps;
    } else {
      var last := |trace| - 1;
      var front, m := trace[..last], trace[last];
      forall i: nat | i < |front| ensures MomentOk(p, front, m.fs, m.own, i) {
        assert MomentOk(p, trace, fs, own, i);
      }
      var early := at[..last + 1];
      forall i: nat | i < |front| ensures SurroundedAt(early, p, creating, front, i) {
        assert SurroundedAt(at, p, creating, trace, i);
      }
      var before, took := TraceIsRun(creating, states, steps, early, p, origin, begun, front, m.fs, m.own);
      assert MomentOk(p, trace, fs, own, last) && SurroundedAt(at, p, creating, trace, last);
      states', steps' := RunOneMore(creating, before, took, at[|trace|], p, m, fs, own);
    }
  }

  /**
    Compare and swap for executed calls: when a call planned against `i` has returned normally, no
    other call of the surrounding machine planned against `i` has, and this one took exactly `i`.
   */
  lemma ExecutedCallReturnsAlone(states: seq<System>, steps: seq<Step>, at: seq<System>, p: Pid, origin: Fs,
                                 begun: Own, trace: seq<Moment>, fs: Fs, own: Own, q: Pid, i: Inode)
    requires Run(states, steps) && Traced(p, origin, begun, trace, fs, own) && Surrounds(at, p, false, trace, fs)
    requires states[|steps|] == at[0] && p in at[0].calls && at[0].calls[p] == begun
    requires own.returned && own.expected == Some(i)
    requires var calls := at[|trace|].calls; q in calls && calls[q].returned && calls[q].expected == Some(i)
    ensures p == q && own.captured == Some(i)
  {
    var s, t := TraceIsRun(false, states, steps, at, p, origin, begun, trace, fs, own);
    AtMostOneReturns(s, t, p, q, i);
  }

  /**
    The same for executed creations: when one has returned normally, no other has, and the target
    is the file it created.
   */
  lemma ExecutedCallCreatesAlone(states: seq<System>, steps: seq<Step>, at: seq<System>, p: Pid, origin: Fs,
                                 begun: Own, trace: seq<Moment>, fs: Fs, own: Own, q: Pid)
    requires CreationRace(states, steps) && Traced(p, origin, begun, trace, fs, own) && Surrounds(at, p, true, trace, fs)
    requires states[|steps|] == at[0] && p in at[0].calls && at[0].calls[p] == begun
    requires own.returned && q in at[|trace|].calls && at[|trace|].calls[q].returned
    ensures p == q && own.created.Some? && Lookup(fs, Target) == own.created
  {
    var s, t := TraceIsRun(true, states, steps, at, p, origin, begun, trace, fs, own);
    AtMostOneCreates(s, t, p, q);
  }

  /**
    What an execution recorded as validated it saw: at that moment the target was bound to the file
    the call created, under exactly two names, with the bytes and mode recorded.
   */
  lemma {:induction false} ValidatedInTrace(p: Pid, origin: Fs, begun: Own, trace: seq<Moment>, fs: Fs, own: Own, n: nat)
    returns (j: nat)
    requires Traced(p, origin, begun, trace, fs, own) && begun.validations == [] && n < |own.validations|
    ensures j < |trace| && own.created.Some?
    ensures var i, seen := own.created.value, trace[j].fs;
            && trace[j].effect == Some(Sight(i, own.validations[n]))
            && Lookup(seen, Target) == Some(i) && LinkCount(seen, i) == 2
            && i in seen.files && seen.files[i] == own.validations[n]
    decreases |trace|
  {
    var last := |trace| - 1;
    var front, m := trace[..last], trace[last];
    assert MomentOk(p, trace, fs, own, last);
    if m.effect.Some? { SightsAdd(m.fs, p, m.own, m.effect.value); }
    if m.effect.Some? && m.effect.value.Sight? && n == |m.own.validations| {
      j := last;
    } else {
      forall i: nat | i < |front| ensures MomentOk(p, front, m.fs, m.own, i) {
        assert MomentOk(p, trace, fs, own, i);
      }
      j := ValidatedInTrace(p, origin, begun, front, m.fs, m.own, n);
    }
  }

  /** What an execution recorded as cleared did not exist at that moment of it. */
  lemma {:induction false} ClearedInTrace(p: Pid, origin: Fs, begun: Own, trace: seq<Moment>, fs: Fs, own: Own, n: nat)
    returns (j: nat)
    requires Traced(p, origin, begun, trace, fs, own) && begun.cleared == [] && n < |own.cleared|
    ensures j < |trace| && trace[j].effect == Some(SeeFree(own.cleared[n])) && own.cleared[n] !in trace[j].fs.names
    ensures var was := trace[j].own;
            if was.role.Writer? then InPlace(was) && |was.validations| >= 2 else was.captured.Some? && was.captured == was.expected
    decreases |trace|
  {
    var last := |trace| - 1;
    var front, m := trace[..last], trace[last];
    assert MomentOk(p, trace, fs, own, last);
    if m.effect.Some? { SightsAdd(m.fs, p, m.own, m.effect.value); }
    if m.effect.Some? && m.effect.value.SeeFree? && n == |m.own.cleared| {
      j := last;
    } else {
      forall i: nat | i < |front| ensures MomentOk(p, front, m.fs, m.own, i) {
        assert MomentOk(p, trace, fs, own, i);
      }
      j := ClearedInTrace(p, origin, begun, front, m.fs, m.own, n);
    }
  }
}
