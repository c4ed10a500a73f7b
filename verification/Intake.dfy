/**
  The intake: a profile completed by at most three questions
  (src/akinator/domain.ts:172-289, src/akinator/service.ts:230-311, src/akinator/store.ts:584-700).
 */
module Intake {
  import opened Options

  datatype Field = TaskType | Target | Expected | Constraints

  datatype Profile = Profile(taskType: Option<string>, target: Option<string>,
                             expected: Option<string>, constraints: Option<string>)

  const MAX_QUESTIONS: nat := 3

  /** The text rules: trimming, task type names and inference, and the size and secret checks. */
  datatype Policy = Policy(trim: string -> string, taskTypeOf: string -> Option<string>, infer: string -> Option<string>,
                           admissible: string -> bool, safeProfile: Profile -> bool)

  /** Names of task types are not empty. */
  ghost predicate PolicyOk(p: Policy) {
    (forall s :: p.taskTypeOf(s) != Some("")) && (forall s :: p.infer(s) != Some(""))
  }

  function Get(profile: Profile, f: Field): Option<string> {
    match f
    case TaskType => profile.taskType
    case Target => profile.target
    case Expected => profile.expected
    case Constraints => profile.constraints
  }

  function Put(profile: Profile, f: Field, v: Option<string>): Profile {
    match f
    case TaskType => profile.(taskType := v)
    case Target => profile.(target := v)
    case Expected => profile.(expected := v)
    case Constraints => profile.(constraints := v)
  }

  // ---- evaluation ----

  predicate IsMissing(profile: Profile, f: Field) {
    Get(profile, f) == None || Get(profile, f) == Some("")
  }

  function IfMissing(profile: Profile, f: Field): seq<Field> {
    if IsMissing(profile, f) then [f] else []
  }

  /** `missingFields`: the required fields that are null or empty. */
  function Missing(profile: Profile): seq<Field> {
    IfMissing(profile, TaskType) + IfMissing(profile, Target) + IfMissing(profile, Expected)
  }

  /** `nextQuestion`: the first required field that is null. */
  function NextQuestion(profile: Profile, questionCount: nat): Option<Field> {
    if questionCount >= MAX_QUESTIONS then None
    else if profile.taskType.None? then Some(TaskType)
    else if profile.target.None? then Some(Target)
    else if profile.expected.None? then Some(Expected)
    else None
  }

  datatype Status = NeedsAnswer | Ready | Exhausted

  datatype Evaluation = Evaluation(status: Status, question: Option<Field>, missing: seq<Field>)

  /** `evaluateValidatedProfile` */
  function Evaluate(profile: Profile, questionCount: nat): Evaluation {
    var missing := Missing(profile);
    Evaluation(if missing == [] then Ready else if questionCount >= MAX_QUESTIONS then Exhausted else NeedsAnswer,
               if missing == [] then None else NextQuestion(profile, questionCount), missing)
  }

  function OptionalText(p: Policy, v: Option<string>): Option<string> {
    if v.None? || p.trim(v.value) == "" then None else Some(p.trim(v.value))
  }

  /** `deriveProfile`; None stands for the throw on an unknown task type. */
  function DeriveProfile(p: Policy, task: string, hints: Profile): Option<Profile> {
    if hints.taskType.Some? && p.taskTypeOf(hints.taskType.value).None? then None
    else Some(Profile(if hints.taskType.Some? then p.taskTypeOf(hints.taskType.value) else p.infer(task),
                      OptionalText(p, hints.target), OptionalText(p, hints.expected), OptionalText(p, hints.constraints)))
  }

  /** The profile value an answer stands for. */
  function Normalised(p: Policy, f: Field, answer: string): Option<string> {
    if f == TaskType then p.taskTypeOf(p.trim(answer)) else Some(p.trim(answer))
  }

  /** `applyAnswer` */
  function ApplyAnswer(p: Policy, profile: Profile, questionCount: nat, f: Field, value: string): Option<Profile> {
    if NextQuestion(profile, questionCount) != Some(f) || p.trim(value) == "" || Normalised(p, f, value).None? then None
    else Some(Put(profile, f, Normalised(p, f, value)))
  }

  // ---- the tables ----

  datatype Session = Session(workspace: string, profile: Profile, status: Status, questionCount: nat)

  /** `startMissing` remembers how many required fields each session lacked when it started. */
  datatype Store = Store(sessions: map<string, Session>, answers: map<(string, Field), string>, startMissing: map<string, nat>)

  datatype Reply = Reply(evaluation: Evaluation, replayed: bool)

  function ReplyFor(s: Session, replayed: bool): Reply {
    Reply(Evaluate(s.profile, s.questionCount), replayed)
  }

  /** `startAkinatorInTransaction`; None stands for a throw. */
  function Start(p: Policy, st: Store, id: string, workspace: string, task: string, hints: Profile): Option<(Store, Reply)> {
    if p.trim(task) == "" || !p.admissible(p.trim(task)) || id in st.sessions then None
    else match DeriveProfile(p, p.trim(task), hints)
      case None => None
      case Some(profile) =>
        if !p.safeProfile(profile) then None else
        var s := Session(workspace, profile, Evaluate(profile, 0).status, 0);
        Some((Store(st.sessions[id := s], st.answers, st.startMissing[id := |Missing(profile)|]), ReplyFor(s, false)))
  }

  /** `updateAkinatorSession` with its guards. */
  function UpdateSession(st: Store, id: string, expectedCount: nat, profile: Profile, status: Status, count: nat): Option<Store> {
    if id !in st.sessions then None
    else
      var s := st.sessions[id];
      if s.status != NeedsAnswer || s.questionCount != expectedCount || count != expectedCount + 1 || count > MAX_QUESTIONS then None
      else Some(st.(sessions := st.sessions[id := s.(profile := profile, status := status, questionCount := count)]))
  }

  /** `answerAkinatorInTransaction` */
  function Answer(p: Policy, st: Store, workspace: string, id: string, f: Field, raw: string): Option<(Store, Reply)> {
    var value := p.trim(raw);
    if value == "" || !p.admissible(value) || id !in st.sessions || st.sessions[id].workspace != workspace then None
    else
      var s := st.sessions[id];
      if (id, f) in st.answers then
        if st.answers[(id, f)] != value then None else Some((st, ReplyFor(s, true)))
      else if s.status != NeedsAnswer then None
      else match ApplyAnswer(p, s.profile, s.questionCount, f, value)
        case None => None
        case Some(profile) =>
          var count := s.questionCount + 1;
          var updated := UpdateSession(st.(answers := st.answers[(id, f) := value]), id, s.questionCount, profile,
                                       Evaluate(profile, count).status, count);
          if updated.None? then None else Some((updated.value, ReplyFor(updated.value.sessions[id], false)))
  }

  // ---- the invariant ----

  predicate Answered(st: Store, id: string, f: Field) {
    (id, f) in st.answers
  }

  function Count(b: bool): nat { if b then 1 else 0 }

  function AnswerCount(st: Store, id: string): nat {
    Count(Answered(st, id, TaskType)) + Count(Answered(st, id, Target))
    + Count(Answered(st, id, Expected)) + Count(Answered(st, id, Constraints))
  }

  /** No field holds an empty text. */
  predicate Proper(profile: Profile) {
    profile.taskType != Some("") && profile.target != Some("") && profile.expected != Some("") && profile.constraints != Some("")
  }

  ghost predicate SessionOk(p: Policy, st: Store, id: string)
    requires id in st.sessions
  {
    var s := st.sessions[id];
    && Proper(s.profile) && s.status == Evaluate(s.profile, s.questionCount).status
    && id in st.startMissing && s.questionCount + |Missing(s.profile)| == st.startMissing[id] <= MAX_QUESTIONS
    && AnswerCount(st, id) == s.questionCount
    && forall f: Field :: Answered(st, id, f) ==>
         Get(s.profile, f).Some? && Get(s.profile, f) == Normalised(p, f, st.answers[(id, f)])
  }

  ghost predicate Inv(p: Policy, st: Store) {
    && (forall id <- st.sessions :: SessionOk(p, st, id))
    && (forall k <- st.answers :: k.0 in st.sessions)
  }

  /** A proper profile with something missing has a question, and answering it removes exactly that field. */
  lemma AnswerShrinksMissing(profile: Profile, f: Field, v: string, count: nat)
    requires Proper(profile) && v != "" && NextQuestion(profile, count) == Some(f)
    ensures Proper(Put(profile, f, Some(v))) && |Missing(Put(profile, f, Some(v)))| + 1 == |Missing(profile)|
    ensures Get(profile, f).None? && Get(Put(profile, f, Some(v)), f) == Some(v)
    ensures forall g: Field :: g != f ==> Get(Put(profile, f, Some(v)), g) == Get(profile, g)
  {
  }

  /** A call about one session leaves the others as they are. */
  lemma OthersKept(p: Policy, st: Store, st': Store, other: string)
    requires other in st.sessions && SessionOk(p, st, other)
    requires other in st'.sessions && st'.sessions[other] == st.sessions[other]
    requires other in st'.startMissing && st'.startMissing[other] == st.startMissing[other]
    requires forall f: Field :: Answered(st', other, f) <==> Answered(st, other, f)
    requires forall f: Field :: Answered(st, other, f) ==> Answered(st', other, f) && st'.answers[(other, f)] == st.answers[(other, f)]
    ensures SessionOk(p, st', other)
  {
  }

  lemma DerivedIsProper(p: Policy, task: string, hints: Profile)
    requires PolicyOk(p) && DeriveProfile(p, task, hints).Some?
    ensures Proper(DeriveProfile(p, task, hints).value)
  {
  }

  lemma StartedOk(p: Policy, st: Store, id: string)
    requires id in st.sessions && id in st.startMissing && forall f: Field :: !Answered(st, id, f)
    requires var s := st.sessions[id];
             Proper(s.profile) && s.questionCount == 0 && s.status == Evaluate(s.profile, 0).status
             && st.startMissing[id] == |Missing(s.profile)|
    ensures SessionOk(p, st, id)
  {
  }

  lemma StartKeepsInv(p: Policy, st: Store, id: string, workspace: string, task: string, hints: Profile)
    requires PolicyOk(p) && Inv(p, st) && Start(p, st, id, workspace, task, hints).Some?
    ensures Inv(p, Start(p, st, id, workspace, task, hints).value.0)
  {
    var st' := Start(p, st, id, workspace, task, hints).value.0;
    DerivedIsProper(p, p.trim(task), hints);
    assert forall f: Field :: !Answered(st', id, f);
    StartedOk(p, st', id);
    forall other <- st'.sessions ensures SessionOk(p, st', other) {
      if other != id {
        assert SessionOk(p, st, other);
        OthersKept(p, st, st', other);
      }
    }
  }

  /** One more answer of the session itself. */
  lemma AnsweredOk(p: Policy, st: Store, st': Store, id: string, f: Field, value: string)
    requires PolicyOk(p) && id in st.sessions && SessionOk(p, st, id) && !Answered(st, id, f) && p.trim(value) != ""
    requires var s := st.sessions[id];
             && ApplyAnswer(p, s.profile, s.questionCount, f, value).Some?
             && id in st'.sessions && id in st'.startMissing && st'.startMissing[id] == st.startMissing[id]
             && var profile := ApplyAnswer(p, s.profile, s.questionCount, f, value).value;
                st'.sessions[id] == s.(profile := profile, questionCount := s.questionCount + 1,
                                       status := Evaluate(profile, s.questionCount + 1).status)
    requires st'.answers == st.answers[(id, f) := value]
    ensures SessionOk(p, st', id)
  {
    var s := st.sessions[id];
    AnswerShrinksMissing(s.profile, f, Normalised(p, f, value).value, s.questionCount);
    assert forall g: Field :: Answered(st', id, g) <==> Answered(st, id, g) || g == f;
  }

  /** The tables after an answer that was accepted, not replayed. */
  function Accepted(p: Policy, st: Store, id: string, f: Field, value: string): Store
    requires id in st.sessions
    requires ApplyAnswer(p, st.sessions[id].profile, st.sessions[id].questionCount, f, value).Some?
  {
    var s := st.sessions[id];
    var profile := ApplyAnswer(p, s.profile, s.questionCount, f, value).value;
    var count := s.questionCount + 1;
    Store(st.sessions[id := s.(profile := profile, questionCount := count, status := Evaluate(profile, count).status)],
          st.answers[(id, f) := value], st.startMissing)
  }

  lemma AnswerIsAccepted(p: Policy, st: Store, workspace: string, id: string, f: Field, raw: string)
    requires Answer(p, st, workspace, id, f, raw).Some? && !Answered(st, id, f)
    ensures id in st.sessions && ApplyAnswer(p, st.sessions[id].profile, st.sessions[id].questionCount, f, p.trim(raw)).Some?
    ensures Answer(p, st, workspace, id, f, raw).value.0 == Accepted(p, st, id, f, p.trim(raw))
  {
  }

  lemma AcceptedElsewhere(p: Policy, st: Store, id: string, f: Field, value: string, other: string)
    requires id in st.sessions && other in st.sessions && other != id && SessionOk(p, st, other)
    requires ApplyAnswer(p, st.sessions[id].profile, st.sessions[id].questionCount, f, value).Some?
    ensures SessionOk(p, Accepted(p, st, id, f, value), other)
  {
    OthersKept(p, st, Accepted(p, st, id, f, value), other);
  }

  lemma AcceptedKeepsInv(p: Policy, st: Store, id: string, f: Field, value: string)
    requires PolicyOk(p) && Inv(p, st) && id in st.sessions && !Answered(st, id, f)
    requires ApplyAnswer(p, st.sessions[id].profile, st.sessions[id].questionCount, f, value).Some?
    ensures Inv(p, Accepted(p, st, id, f, value))
  {
    var st' := Accepted(p, st, id, f, value);
    AnsweredOk(p, st, st', id, f, value);
    forall other <- st'.sessions ensures SessionOk(p, st', other) {
      if other != id { AcceptedElsewhere(p, st, id, f, value, other); }
    }
  }

  lemma AnswerKeepsInv(p: Policy, st: Store, workspace: string, id: string, f: Field, raw: string)
    requires PolicyOk(p) && Inv(p, st) && Answer(p, st, workspace, id, f, raw).Some?
    ensures Inv(p, Answer(p, st, workspace, id, f, raw).value.0)
  {
    if !Answered(st, id, f) {
      AnswerIsAccepted(p, st, workspace, id, f, raw);
      AcceptedKeepsInv(p, st, id, f, p.trim(raw));
    }
  }

  // ---- every run ----

  datatype Op =
    | StartOp(id: string, workspace: string, task: string, hints: Profile)
    | AnswerOp(workspace: string, id: string, field: Field, raw: string)

  /** A rejected call leaves the tables as they were. */
  function Apply(p: Policy, st: Store, op: Op): Store {
    var r := match op
      case StartOp(id, workspace, task, hints) => Start(p, st, id, workspace, task, hints)
      case AnswerOp(workspace, id, field, raw) => Answer(p, st, workspace, id, field, raw);
    if r.Some? then r.value.0 else st
  }

  function After(p: Policy, ops: seq<Op>): Store {
    if ops == [] then Store(map[], map[], map[]) else Apply(p, After(p, ops[..|ops| - 1]), ops[|ops| - 1])
  }

  lemma StepKeepsInv(p: Policy, st: Store, op: Op)
    ensures PolicyOk(p) && Inv(p, st) ==> Inv(p, Apply(p, st, op))
  {
    if PolicyOk(p) && Inv(p, st) {
      match op
      case StartOp(id, workspace, task, hints) =>
        if Start(p, st, id, workspace, task, hints).Some? { StartKeepsInv(p, st, id, workspace, task, hints); }
      case AnswerOp(workspace, id, field, raw) =>
        if Answer(p, st, workspace, id, field, raw).Some? { AnswerKeepsInv(p, st, workspace, id, field, raw); }
    }
  }

  lemma {:induction false} InvAlways(p: Policy, ops: seq<Op>)
    requires PolicyOk(p)
    ensures Inv(p, After(p, ops))
  {
    if ops != [] {
      InvAlways(p, ops[..|ops| - 1]);
      StepKeepsInv(p, After(p, ops[..|ops| - 1]), ops[|ops| - 1]);
    }
  }

  /**
    After any calls, for every session: the questions answered and the fields still missing add up
    to what was missing at the start, one answer is stored per question, the session is never
    exhausted, it is ready exactly when all those questions are answered, and until then it asks
    for a field nobody has answered.
   */
  lemma IntakeInvariant(p: Policy, ops: seq<Op>, id: string)
    requires PolicyOk(p) && id in After(p, ops).sessions
    ensures var st := After(p, ops);
            var s := st.sessions[id];
            && id in st.startMissing && s.questionCount + |Missing(s.profile)| == st.startMissing[id]
            && AnswerCount(st, id) == s.questionCount
            && s.status != Exhausted && (s.status == Ready <==> s.questionCount == st.startMissing[id])
            && (forall f: Field :: Answered(st, id, f) ==> Get(s.profile, f) == Normalised(p, f, st.answers[(id, f)]))
            && (s.status == NeedsAnswer ==>
                && Evaluate(s.profile, s.questionCount).question.Some?
                && !Answered(st, id, Evaluate(s.profile, s.questionCount).question.value))
  {
    InvAlways(p, ops);
    var st := After(p, ops);
    assert SessionOk(p, st, id);
  }

  lemma AskedIsOpen(p: Policy, st: Store, id: string)
    requires Inv(p, st) && id in st.sessions && st.sessions[id].status == NeedsAnswer
    ensures var s := st.sessions[id];
            var q := NextQuestion(s.profile, s.questionCount);
            q.Some? && Evaluate(s.profile, s.questionCount).question == q && !Answered(st, id, q.value)
  {
    assert SessionOk(p, st, id);
  }

  /** Answering the question asked with an acceptable value is accepted and is one step. */
  lemma AskedIsAccepted(p: Policy, st: Store, id: string, f: Field, raw: string)
    requires id in st.sessions && st.sessions[id].status == NeedsAnswer && !Answered(st, id, f)
    requires NextQuestion(st.sessions[id].profile, st.sessions[id].questionCount) == Some(f)
    requires var value := p.trim(raw);
             value != "" && p.admissible(value) && p.trim(value) != "" && Normalised(p, f, value).Some?
    ensures var r := Answer(p, st, st.sessions[id].workspace, id, f, raw);
            r.Some? && !r.value.1.replayed && r.value.0 == Accepted(p, st, id, f, p.trim(raw))
  {
  }

  lemma QuestionCanBeAnswered(p: Policy, ops: seq<Op>, id: string, raw: string)
    requires PolicyOk(p) && id in After(p, ops).sessions && After(p, ops).sessions[id].status == NeedsAnswer
    ensures var st := After(p, ops);
            var s := st.sessions[id];
            var q := Evaluate(s.profile, s.questionCount).question;
            var value := p.trim(raw);
            && q.Some?
            && (value != "" && p.admissible(value) && p.trim(value) != "" && Normalised(p, q.value, value).Some? ==>
                var r := Answer(p, st, s.workspace, id, q.value, raw);
                r.Some? && !r.value.1.replayed && r.value.0.sessions[id].questionCount == s.questionCount + 1)
  {
    InvAlways(p, ops);
    var st := After(p, ops);
    AskedIsOpen(p, st, id);
    var q, value := NextQuestion(st.sessions[id].profile, st.sessions[id].questionCount).value, p.trim(raw);
    if value != "" && p.admissible(value) && p.trim(value) != "" && Normalised(p, q, value).Some? {
      AskedIsAccepted(p, st, id, q, raw);
    }
  }

  /** Repeating an accepted answer replays it without a trace; a different one is refused. */
  lemma AnswersAreFinal(p: Policy, st: Store, workspace: string, id: string, f: Field, raw: string, again: string)
    requires Answer(p, st, workspace, id, f, raw).Some?
    ensures var st' := Answer(p, st, workspace, id, f, raw).value.0;
            && (p.trim(again) == p.trim(raw) ==>
                Answer(p, st', workspace, id, f, again) == Some((st', ReplyFor(st'.sessions[id], true))))
            && (p.trim(again) != p.trim(raw) ==> Answer(p, st', workspace, id, f, again) == None)
  {
  }

  // ---- what is stored ----

  predicate Filled(v: Option<string>) {
    v.Some? && v.value != ""
  }

  /** A text hint is stored trimmed, an empty one not at all. */
  predicate StoredHint(p: Policy, hint: Option<string>, stored: Option<string>) {
    if hint.Some? && p.trim(hint.value) != "" then stored == Some(p.trim(hint.value)) else stored == None
  }

  /**
    When a start succeeds and what it stores: the task type hinted or, without a hint, inferred from the
    trimmed task, and each text hint in its own field.
   */
  lemma StartStores(p: Policy, st: Store, id: string, workspace: string, task: string, hints: Profile)
    ensures var r := Start(p, st, id, workspace, task, hints);
            && (r.Some? ==>
                  && id in r.value.0.sessions
                  && var s := r.value.0.sessions[id];
                     && s.workspace == workspace && s.questionCount == 0
                     && s.profile.taskType == (if hints.taskType.Some? then p.taskTypeOf(hints.taskType.value) else p.infer(p.trim(task)))
                     && (hints.taskType.Some? ==> s.profile.taskType.Some?)
                     && StoredHint(p, hints.target, s.profile.target) && StoredHint(p, hints.expected, s.profile.expected)
                     && StoredHint(p, hints.constraints, s.profile.constraints) && p.safeProfile(s.profile)
                     && r.value.0.answers == st.answers && r.value.0.sessions == st.sessions[id := s] && id !in st.sessions
                     && r.value.1 == Reply(Evaluate(s.profile, 0), false))
            && (r.None? ==>
                  || id in st.sessions || p.trim(task) == "" || !p.admissible(p.trim(task))
                  || (hints.taskType.Some? && p.taskTypeOf(hints.taskType.value).None?)
                  || exists profile :: !p.safeProfile(profile) && StoredHint(p, hints.target, profile.target)
                       && StoredHint(p, hints.expected, profile.expected) && StoredHint(p, hints.constraints, profile.constraints)
                       && profile.taskType == if hints.taskType.Some? then p.taskTypeOf(hints.taskType.value) else p.infer(p.trim(task)))
  {
    var derived := DeriveProfile(p, p.trim(task), hints);
    if derived.Some? {
      var profile := derived.value;
      assert StoredHint(p, hints.target, profile.target) && StoredHint(p, hints.expected, profile.expected)
          && StoredHint(p, hints.constraints, profile.constraints);
    }
  }

  /** The required fields, in the order they are asked for. */
  const REQUIRED: seq<Field> := [TaskType, Target, Expected]

  /** The missing fields are the required ones without a text, in order. */
  lemma MissingExactly(profile: Profile)
    ensures forall f: Field :: f in Missing(profile) <==> f in REQUIRED && !Filled(Get(profile, f))
    ensures forall i, j | 0 <= i < j < |Missing(profile)| :: RankOf(Missing(profile)[i]) < RankOf(Missing(profile)[j])
  {
  }

  /** The status of any profile after any number of questions. */
  lemma EvaluateExactly(profile: Profile, questionCount: nat)
    ensures var e := Evaluate(profile, questionCount);
            var complete := forall f <- REQUIRED :: Filled(Get(profile, f));
            && e.status == (if complete then Ready else if questionCount < 3 then NeedsAnswer else Exhausted)
            && (e.question.Some? ==> e.status == NeedsAnswer && e.question.value in REQUIRED && Get(profile, e.question.value) == None)
            && e.missing == Missing(profile)
  {
    MissingExactly(profile);
    assert TaskType in REQUIRED && Target in REQUIRED && Expected in REQUIRED;
    if Missing(profile) != [] { assert Missing(profile)[0] in Missing(profile); }
  }

  function RankOf(f: Field): nat {
    match f case TaskType => 0 case Target => 1 case Expected => 2 case Constraints => 3
  }

  /**
    After any calls a session is ready exactly when task type, target and expected result are filled in,
    and otherwise asks for the first of them, in that order, that is not.
   */
  lemma AsksInOrder(p: Policy, ops: seq<Op>, id: string)
    requires PolicyOk(p) && id in After(p, ops).sessions
    ensures var s := After(p, ops).sessions[id];
            var q := Evaluate(s.profile, s.questionCount).question;
            && (s.status == Ready <==> Filled(s.profile.taskType) && Filled(s.profile.target) && Filled(s.profile.expected))
            && q == if !Filled(s.profile.taskType) then Some(TaskType) else if !Filled(s.profile.target) then Some(Target)
                    else if !Filled(s.profile.expected) then Some(Expected) else None
  {
    InvAlways(p, ops);
    assert SessionOk(p, After(p, ops), id);
  }

  /** What an accepted answer changes: the field asked for, the count and the stored answer, nothing else. */
  lemma AnswerStores(p: Policy, ops: seq<Op>, workspace: string, id: string, f: Field, raw: string)
    requires PolicyOk(p) && Answer(p, After(p, ops), workspace, id, f, raw).Some? && !Answered(After(p, ops), id, f)
    ensures var st, st' := After(p, ops), Answer(p, After(p, ops), workspace, id, f, raw).value.0;
            && id in st.sessions && id in st'.sessions
            && var s, s' := st.sessions[id], st'.sessions[id];
               && s.workspace == workspace == s'.workspace && s'.questionCount == s.questionCount + 1
               && !Filled(Get(s.profile, f)) && Filled(Get(s'.profile, f))
               && Get(s'.profile, f) == (if f == TaskType then p.taskTypeOf(p.trim(p.trim(raw))) else Some(p.trim(p.trim(raw))))
               && (forall g: Field | g != f :: Get(s'.profile, g) == Get(s.profile, g))
               && st'.sessions == st.sessions[id := s'] && st'.answers == st.answers[(id, f) := p.trim(raw)]
               && Answer(p, st, workspace, id, f, raw).value.1 == Reply(Evaluate(s'.profile, s'.questionCount), false)
  {
    InvAlways(p, ops);
    var st := After(p, ops);
    AnswerIsAccepted(p, st, workspace, id, f, raw);
    assert SessionOk(p, st, id);
    var s := st.sessions[id];
    AnswerShrinksMissing(s.profile, f, Normalised(p, f, p.trim(raw)).value, s.questionCount);
  }

  // ---- the service ----

  class Service {
    const p: Policy
    var sessions: map<string, Session>
    var answers: map<(string, Field), string>
    ghost var startMissing: map<string, nat>

    ghost function Tables(): Store
      reads this
    {
      Store(sessions, answers, startMissing)
    }

    constructor (p: Policy)
      ensures this.p == p && Tables() == After(p, [])
    {
      this.p := p;
      sessions, answers, startMissing := map[], map[], map[];
    }

    method StartSession(id: string, workspace: string, task: string, hints: Profile) returns (r: Option<Reply>)
      modifies this
      ensures match Start(p, old(Tables()), id, workspace, task, hints)
              case None => r == None && Tables() == old(Tables())
              case Some((st, reply)) => r == Some(reply) && Tables() == st
      ensures PolicyOk(p) && old(Inv(p, Tables())) ==> Inv(p, Tables())
    {
      StepKeepsInv(p, Tables(), StartOp(id, workspace, task, hints));
      if p.trim(task) == "" || !p.admissible(p.trim(task)) || id in sessions { return None; }
      var derived := DeriveProfile(p, p.trim(task), hints);
      if derived.None? || !p.safeProfile(derived.value) { return None; }
      var s := Session(workspace, derived.value, Evaluate(derived.value, 0).status, 0);
      sessions := sessions[id := s];
      startMissing := startMissing[id := |Missing(derived.value)|];
      r := Some(ReplyFor(s, false));
    }

    method AnswerQuestion(workspace: string, id: string, f: Field, raw: string) returns (r: Option<Reply>)
      modifies this
      ensures match Answer(p, old(Tables()), workspace, id, f, raw)
              case None => r == None && Tables() == old(Tables())
              case Some((st, reply)) => r == Some(reply) && Tables() == st
      ensures PolicyOk(p) && old(Inv(p, Tables())) ==> Inv(p, Tables())
    {
      StepKeepsInv(p, Tables(), AnswerOp(workspace, id, f, raw));
      var value := p.trim(raw);
      if value == "" || !p.admissible(value) || id !in sessions || sessions[id].workspace != workspace { return None; }
      var s := sessions[id];
      if (id, f) in answers {
        if answers[(id, f)] != value { return None; }
        return Some(ReplyFor(s, true));
      }
      if s.status != NeedsAnswer { return None; }
      var next := ApplyAnswer(p, s.profile, s.questionCount, f, value);
      if next.None? { return None; }
      var count := s.questionCount + 1;
      answers := answers[(id, f) := value];
      sessions := sessions[id := s.(profile := next.value, status := Evaluate(next.value, count).status, questionCount := count)];
      r := Some(ReplyFor(sessions[id], false));
    }
  }
}
