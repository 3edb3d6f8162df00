/**
 The life of an interview: start, code snapshots and chat, the user's end, the delayed timeout
 job, and the evaluation that follows an end.

 Ending has two phases.  Phase A checks the status and saves COMPLETED (one atomic step,
 EndByUser or Deliver); phase B (FinishEvaluation) saves an evaluation row or fails.  Steps of
 different requests and deliveries interleave freely.  Saving the interview may fail in each of
 them, and so may adding the job to the queue.
 */
module Interviews {
  import opened Wrappers

  type Id = string

  datatype Mode = SHORT | STANDARD | LONG

  datatype Status = ACTIVE | COMPLETED | ABANDONED

  datatype Interview = Interview(userId: nat, mode: Mode, status: Status, startedAt: int,
                                 scheduledEndAt: Option<int>, endedAt: Option<int>,
                                 latestCode: Option<string>, codeLanguage: Option<string>)

  /** Source code and language id that an ending hands to Judge0. */
  datatype Judged = Judged(code: string, languageId: int)

  /**
   jobs: due times of the delayed or running end-interview jobs, by interview; failed: jobs that
   stay in the queue as failed; evaluating: endings between phase A and phase B; evaluations:
   interview ids of the evaluation rows.
   */
  datatype State = State(now: int, interviews: map<Id, Interview>, jobs: map<Id, int>, failed: set<Id>,
                         evaluating: multiset<Id>, evaluations: multiset<Id>)

  /** Where a start throws once its row is saved: adding the job to the queue, or saving the scheduled end. */
  datatype StartFailure = NoFailure | AtQueue | AtSave

  datatype Op =
    | Advance(ms: nat)
    | Start(id: Id, userId: nat, mode: Mode, failure: StartFailure)
    | Snapshot(id: Id, userId: nat, code: string, language: string)
    | Chat(id: Id, userId: nat, chatCode: Option<string>, chatLanguage: Option<string>)
    | EndByUser(id: Id, userId: nat, sentCode: Option<string>, sentLanguage: Option<int>, removable: bool,
                saved: bool)                 // saved: the interview store takes COMPLETED
    | Deliver(id: Id, lookup: Option<int>)   // lookup: what findBySlug gives for the stored language
    | DeliverFails(id: Id)                   // phase A fails: the interview store, or the worker
    | FinishEvaluation(id: Id, ok: bool)

  datatype Outcome =
    | Quiet | Started(endAt: int) | HalfStarted | Unsaved | Stored | Answered | NotFound | NotActive | Failed
    | AlreadyEnded | Skipped | Ended(judged: Option<Judged>) | Evaluated

  // ---------------------------------------------------------------- one step

  function DurationMs(mode: Mode): nat {
    match mode
    case SHORT => 30 * 60 * 1000
    case STANDARD => 45 * 60 * 1000
    case LONG => 60 * 60 * 1000
  }

  predicate Owns(s: State, id: Id, userId: nat) {
    id in s.interviews && s.interviews[id].userId == userId
  }

  function DoStart(s: State, id: Id, userId: nat, mode: Mode, failure: StartFailure): (State, Outcome) {
    if id in s.interviews then (s, Failed) else
    var endAt := s.now + DurationMs(mode);
    var row := Interview(userId, mode, ACTIVE, s.now, None, None, None, None);
    match failure
    case AtQueue => (s.(interviews := s.interviews[id := row]), HalfStarted)
    case AtSave => (s.(interviews := s.interviews[id := row], jobs := s.jobs[id := endAt]), HalfStarted)
    case NoFailure =>
      (s.(interviews := s.interviews[id := row.(scheduledEndAt := Some(endAt))], jobs := s.jobs[id := endAt]),
       Started(endAt))
  }

  function WithCode(s: State, id: Id, code: string, language: Option<string>): State
    requires id in s.interviews
  {
    s.(interviews := s.interviews[id := s.interviews[id].(latestCode := Some(code), codeLanguage := language)])
  }

  function DoSnapshot(s: State, id: Id, userId: nat, code: string, language: string): (State, Outcome) {
    if !Owns(s, id, userId) then (s, NotFound)
    else if s.interviews[id].status != ACTIVE then (s, NotActive)
    else (WithCode(s, id, code, Some(language)), Stored)
  }

  predicate Truthy(text: Option<string>) { text.Some? && text.value != "" }

  function DoChat(s: State, id: Id, userId: nat, code: Option<string>, language: Option<string>): (State, Outcome) {
    if !Owns(s, id, userId) then (s, NotFound)
    else if s.interviews[id].status != ACTIVE then (s, NotActive)
    else if Truthy(code) then (WithCode(s, id, code.value, language), Stored)
    else (s, Answered)
  }

  /** Phase A, once the checks have passed. */
  function Complete(s: State, id: Id): State
    requires id in s.interviews
  {
    s.(interviews := s.interviews[id := s.interviews[id].(status := COMPLETED, endedAt := Some(s.now))],
       evaluating := s.evaluating + multiset{id})
  }

  function ToJudge(code: Option<string>, languageId: Option<int>): Option<Judged> {
    if Truthy(code) && languageId.Some? && languageId.value != 0
    then Some(Judged(code.value, languageId.value)) else None
  }

  /** Removing a locked job throws; a save that throws leaves the job removed. */
  function DoEndByUser(s: State, id: Id, userId: nat, code: Option<string>, languageId: Option<int>, removable: bool,
                       saved: bool): (State, Outcome)
  {
    if !Owns(s, id, userId) then (s, NotFound)
    else if s.interviews[id].status == COMPLETED then (s, AlreadyEnded)
    else if id in s.jobs && !removable then (s, Failed)
    else
      var cancelled := s.(jobs := s.jobs - {id}, failed := s.failed - {id});
      if saved then (Complete(cancelled, id), Ended(ToJudge(code, languageId))) else (cancelled, Unsaved)
  }

  function StoredJudged(row: Interview, lookup: Option<int>): Option<Judged> {
    ToJudge(row.latestCode, if Truthy(row.codeLanguage) then lookup else None)
  }

  /** A (possibly repeated) delivery of a due job. */
  function DoDeliver(s: State, id: Id, lookup: Option<int>): (State, Outcome) {
    if id !in s.jobs || s.now < s.jobs[id] then (s, Quiet)
    else if id !in s.interviews || s.interviews[id].status != ACTIVE then (s.(jobs := s.jobs - {id}), Skipped)
    else (Complete(s, id), Ended(StoredJudged(s.interviews[id], lookup)))
  }

  function DoDeliverFails(s: State, id: Id): (State, Outcome) {
    if id !in s.jobs || s.now < s.jobs[id] then (s, Quiet)
    else (s.(jobs := s.jobs - {id}, failed := s.failed + {id}), Failed)
  }

  function DoFinish(s: State, id: Id, ok: bool): (State, Outcome) {
    if id !in s.evaluating then (s, Quiet) else
    var t := s.(evaluating := s.evaluating - multiset{id}, jobs := s.jobs - {id});
    if ok then (t.(evaluations := s.evaluations + multiset{id}), Evaluated)
    else (t.(failed := if id in s.jobs then s.failed + {id} else s.failed), Failed)
  }

  function Step(s: State, op: Op): (State, Outcome) {
    match op
    case Advance(ms) => (s.(now := s.now + ms), Quiet)
    case Start(id, userId, mode, failure) => DoStart(s, id, userId, mode, failure)
    case Snapshot(id, userId, code, language) => DoSnapshot(s, id, userId, code, language)
    case Chat(id, userId, code, language) => DoChat(s, id, userId, code, language)
    case EndByUser(id, userId, code, languageId, removable, saved) =>
      DoEndByUser(s, id, userId, code, languageId, removable, saved)
    case Deliver(id, lookup) => DoDeliver(s, id, lookup)
    case DeliverFails(id) => DoDeliverFails(s, id)
    case FinishEvaluation(id, ok) => DoFinish(s, id, ok)
  }

  // ---------------------------------------------------------------- one interview at a time

  /** Everything the state says about one interview. */
  datatype View = View(row: Option<Interview>, dueAt: Option<int>, jobFailed: bool, evaluating: nat, evaluations: nat)

  function ViewOf(s: State, id: Id): View {
    View(if id in s.interviews then Some(s.interviews[id]) else None,
         if id in s.jobs then Some(s.jobs[id]) else None,
         id in s.failed, s.evaluating[id], s.evaluations[id])
  }

  predicate Targets(op: Op, id: Id) { !op.Advance? && op.id == id }

  predicate Active(v: View) { v.row.Some? && v.row.value.status == ACTIVE }

  predicate Completed(v: View) { v.row.Some? && v.row.value.status == COMPLETED }

  /** When the time of an interview is up: its start plus its mode's duration. */
  function DueAt(row: Interview): int { row.startedAt + DurationMs(row.mode) }

  /** The invariant: in particular a job of an ACTIVE interview is due when its time is up. */
  predicate ViewOk(now: int, v: View) {
    match v.row
    case None => v.dueAt.None? && !v.jobFailed && v.evaluating == 0 && v.evaluations == 0
    case Some(row) =>
      && (row.scheduledEndAt == None || row.scheduledEndAt == Some(DueAt(row)))
      && row.startedAt <= now
      && row.status != ABANDONED
      && (row.endedAt.None? <==> row.status == ACTIVE)
      && v.evaluating + v.evaluations <= (if row.status == ACTIVE then 0 else 1)
      && (row.status == ACTIVE && v.dueAt.Some? ==> v.dueAt == Some(DueAt(row)) && !v.jobFailed)
  }

  lemma StartTouchesOne(s: State, first: Id, userId: nat, mode: Mode, failure: StartFailure, id: Id)
    requires id != first
    ensures ViewOf(DoStart(s, first, userId, mode, failure).0, id) == ViewOf(s, id)
  {
    hide DurationMs;
  }

  lemma EndTouchesOne(s: State, first: Id, userId: nat, code: Option<string>, languageId: Option<int>,
                      removable: bool, saved: bool, id: Id)
    requires id != first
    ensures ViewOf(DoEndByUser(s, first, userId, code, languageId, removable, saved).0, id) == ViewOf(s, id)
  {
    hide ToJudge;
  }

  lemma DeliveryTouchesOne(s: State, first: Id, lookup: Option<int>, id: Id)
    requires id != first
    ensures ViewOf(DoDeliver(s, first, lookup).0, id) == ViewOf(s, id)
  {
    hide StoredJudged;
  }

  lemma FinishTouchesOne(s: State, first: Id, ok: bool, id: Id)
    requires id != first
    ensures ViewOf(DoFinish(s, first, ok).0, id) == ViewOf(s, id)
  {}

  lemma OthersUntouched(s: State, op: Op, id: Id)
    requires !Targets(op, id)
    ensures ViewOf(Step(s, op).0, id) == ViewOf(s, id)
  {
    hide DoStart, DoEndByUser, DoDeliver, DoFinish, Truthy;
    match op
    case Start(first, userId, mode, failure) => StartTouchesOne(s, first, userId, mode, failure, id);
    case EndByUser(first, userId, code, languageId, removable, saved) =>
      EndTouchesOne(s, first, userId, code, languageId, removable, saved, id);
    case Deliver(first, lookup) => DeliveryTouchesOne(s, first, lookup, id);
    case FinishEvaluation(first, ok) => FinishTouchesOne(s, first, ok, id);
    case _ =>
  }

  lemma TimeMovesOn(s: State, op: Op)
    ensures Step(s, op).0.now >= s.now
  {}

  lemma FinishKeepsView(s: State, id: Id, ok: bool)
    requires ViewOk(s.now, ViewOf(s, id))
    ensures ViewOk(s.now, ViewOf(DoFinish(s, id, ok).0, id))
  {}

  lemma EndKeepsView(s: State, id: Id, userId: nat, code: Option<string>, languageId: Option<int>,
                     removable: bool, saved: bool)
    requires ViewOk(s.now, ViewOf(s, id))
    ensures ViewOk(s.now, ViewOf(DoEndByUser(s, id, userId, code, languageId, removable, saved).0, id))
  {
    hide ToJudge;
  }

  lemma StepKeepsView(s: State, op: Op, id: Id)
    requires ViewOk(s.now, ViewOf(s, id))
    ensures ViewOk(Step(s, op).0.now, ViewOf(Step(s, op).0, id))
  {
    hide DoFinish, DoEndByUser, StoredJudged;
    TimeMovesOn(s, op);
    if !Targets(op, id) {
      OthersUntouched(s, op, id);
    } else if op.FinishEvaluation? {
      FinishKeepsView(s, id, op.ok);
    } else if op.EndByUser? {
      EndKeepsView(s, id, op.userId, op.sentCode, op.sentLanguage, op.removable, op.saved);
    }
  }

  /** What a step may do to an interview that has begun: end it once, and use up its one evaluation. */
  lemma StepOnView(s: State, op: Op, id: Id)
    requires ViewOk(s.now, ViewOf(s, id))
    ensures var (t, out) := Step(s, op);
            var v, w := ViewOf(s, id), ViewOf(t, id);
            && (v.row.Some? ==> w.row.Some? && w.row.value.startedAt == v.row.value.startedAt
                                && w.row.value.mode == v.row.value.mode && w.row.value.userId == v.row.value.userId)
            && (Targets(op, id) && out.Ended? ==> Active(v) && Completed(w) && w.evaluating == 1)
            && (Active(v) && !(Targets(op, id) && out.Ended?) ==> Active(w))
            && (Completed(v) ==> Completed(w) && w.evaluating + w.evaluations <= v.evaluating + v.evaluations
                                 && v.evaluations <= w.evaluations)
            && (v.row.Some? ==> w.row.value.scheduledEndAt == v.row.value.scheduledEndAt)
            && (v.row.None? && w.row.Some? ==> (
                  && op.Start? && (out.Started? || out.HalfStarted?) && Active(w)
                  && w.row.value.startedAt == s.now && w.row.value.mode == op.mode
                  && w.row.value.scheduledEndAt == if out.Started? then Some(s.now + DurationMs(op.mode)) else None))
            && t.now >= s.now
  {
    if !Targets(op, id) {
      OthersUntouched(s, op, id);
    }
  }

  // ---------------------------------------------------------------- runs

  const EMPTY := State(0, map[], map[], {}, multiset{}, multiset{})

  /** The state after the first k steps, from an empty database. */
  function After(ops: seq<Op>, k: nat): State
    requires k <= |ops|
  {
    if k == 0 then EMPTY else Step(After(ops, k - 1), ops[k - 1]).0
  }

  function OutcomeAt(ops: seq<Op>, k: nat): Outcome
    requires k < |ops|
  {
    Step(After(ops, k), ops[k]).1
  }

  predicate EndedAt(ops: seq<Op>, k: nat, id: Id) {
    k < |ops| && Targets(ops[k], id) && OutcomeAt(ops, k).Ended?
  }

  lemma {:induction false} RunsKeepViews(ops: seq<Op>, k: nat, id: Id)
    requires k <= |ops|
    ensures ViewOk(After(ops, k).now, ViewOf(After(ops, k), id))
  {
    if k > 0 {
      RunsKeepViews(ops, k - 1, id);
      StepKeepsView(After(ops, k - 1), ops[k - 1], id);
    }
  }

  lemma {:induction false} CompletedForGood(ops: seq<Op>, i: nat, k: nat, id: Id)
    requires i <= k <= |ops| && Completed(ViewOf(After(ops, i), id))
    ensures var v, w := ViewOf(After(ops, i), id), ViewOf(After(ops, k), id);
            && Completed(w) && v.evaluations <= w.evaluations
            && w.evaluating + w.evaluations <= v.evaluating + v.evaluations
  {
    hide Step;
    if i < k {
      CompletedForGood(ops, i, k - 1, id);
      RunsKeepViews(ops, k - 1, id);
      StepOnView(After(ops, k - 1), ops[k - 1], id);
    }
  }

  /** Main result: however ends, timers and repeated deliveries interleave, an interview is ended once. */
  lemma EndedOnce(ops: seq<Op>, i: nat, j: nat, id: Id)
    requires i < j && EndedAt(ops, i, id)
    ensures !EndedAt(ops, j, id)
  {
    hide Step;
    RunsKeepViews(ops, i, id);
    StepOnView(After(ops, i), ops[i], id);
    if j < |ops| {
      CompletedForGood(ops, i + 1, j, id);
      RunsKeepViews(ops, j, id);
      StepOnView(After(ops, j), ops[j], id);
    }
  }

  /** Of every interview there is at most one evaluation row, and none before it is COMPLETED. */
  lemma EvaluatedAtMostOnce(ops: seq<Op>, k: nat, id: Id)
    requires k <= |ops|
    ensures After(ops, k).evaluations[id] <= 1
    ensures After(ops, k).evaluations[id] == 1 ==>
              Completed(ViewOf(After(ops, k), id)) && After(ops, k).evaluating[id] == 0
  {
    RunsKeepViews(ops, k, id);
  }

  /** A COMPLETED interview whose evaluation failed never gets one. */
  lemma FailedEvaluationIsFinal(ops: seq<Op>, i: nat, k: nat, id: Id)
    requires i < k <= |ops| && ops[i] == FinishEvaluation(id, false) && OutcomeAt(ops, i) == Failed
    ensures Completed(ViewOf(After(ops, k), id)) && After(ops, k).evaluations[id] == 0
  {
    RunsKeepViews(ops, i, id);
    CompletedForGood(ops, i + 1, k, id);
  }

  // ---------------------------------------------------------------- when an evaluation is saved

  /** What follows an end: it saves an evaluation, or fails. */
  predicate FinishedAt(ops: seq<Op>, k: nat, id: Id) {
    k < |ops| && ops[k].FinishEvaluation? && ops[k].id == id && OutcomeAt(ops, k) != Quiet
  }

  lemma StepOnEvaluation(s: State, op: Op, id: Id)
    ensures var (t, out) := Step(s, op);
            var finishes := op.FinishEvaluation? && op.id == id && out != Quiet;
            && (finishes ==> s.evaluating[id] > 0 && out == if op.ok then Evaluated else Failed)
            && (op.FinishEvaluation? && op.id == id && out == Quiet ==> s.evaluating[id] == 0)
            && t.evaluations[id] == s.evaluations[id] + (if finishes && op.ok then 1 else 0)
            && t.evaluating[id] == s.evaluating[id] + (if Targets(op, id) && out.Ended? then 1 else 0)
                                                    - (if finishes then 1 else 0)
  {
    if !Targets(op, id) {
      OthersUntouched(s, op, id);
      assert ViewOf(Step(s, op).0, id).evaluations == s.evaluations[id];
      assert ViewOf(Step(s, op).0, id).evaluating == s.evaluating[id];
    } else {
      hide ToJudge, StoredJudged, DurationMs;
    }
  }

  /** An ending waits for its evaluation exactly from the end of the interview to the first finish after it. */
  lemma {:induction false} EvaluatingIff(ops: seq<Op>, k: nat, id: Id)
    requires k <= |ops|
    ensures After(ops, k).evaluating[id] > 0
      <==> (exists i: nat :: i < k && EndedAt(ops, i, id)) && forall j: nat | j < k :: !FinishedAt(ops, j, id)
    ensures !Completed(ViewOf(After(ops, k), id)) ==>
              forall j: nat | j < k :: !FinishedAt(ops, j, id) && !EndedAt(ops, j, id)
  {
    hide Step;
    if k > 0 {
      var s := After(ops, k - 1);
      EvaluatingIff(ops, k - 1, id);
      RunsKeepViews(ops, k - 1, id);
      RunsKeepViews(ops, k, id);
      StepOnView(s, ops[k - 1], id);
      StepOnEvaluation(s, ops[k - 1], id);
      EvaluatingIsCompleted(s, id);
      assert EndedAt(ops, k - 1, id) <==> Targets(ops[k - 1], id) && Step(s, ops[k - 1]).1.Ended?;
      assert FinishedAt(ops, k - 1, id)
        <==> ops[k - 1].FinishEvaluation? && ops[k - 1].id == id && Step(s, ops[k - 1]).1 != Quiet;
    }
  }

  lemma EvaluatingIsCompleted(s: State, id: Id)
    requires ViewOk(s.now, ViewOf(s, id))
    ensures s.evaluating[id] <= 1
    ensures s.evaluating[id] > 0 ==> Completed(ViewOf(s, id))
  {}

  /**
   Main result: the finish after an end, by the user or by the timer, is the one that counts: it saves the
   evaluation unless it fails.  A finish without an end before it, or after another one, does nothing.
   */
  lemma FinishCountsIff(ops: seq<Op>, k: nat, id: Id, ok: bool)
    requires k < |ops| && ops[k] == FinishEvaluation(id, ok)
    ensures OutcomeAt(ops, k)
         == if (exists i: nat :: i < k && EndedAt(ops, i, id)) && forall j: nat | j < k :: !FinishedAt(ops, j, id)
            then (if ok then Evaluated else Failed) else Quiet
  {
    hide Step;
    EvaluatingIff(ops, k, id);
    StepOnEvaluation(After(ops, k), ops[k], id);
  }

  /** An interview has its evaluation exactly when one of the steps so far was such a finish that did not fail. */
  lemma {:induction false} EvaluatedIff(ops: seq<Op>, k: nat, id: Id)
    requires k <= |ops|
    ensures After(ops, k).evaluations[id] == 1
      <==> exists i: nat :: i < k && ops[i] == FinishEvaluation(id, true) && OutcomeAt(ops, i) == Evaluated
  {
    hide Step;
    if k > 0 {
      EvaluatedIff(ops, k - 1, id);
      StepOnEvaluation(After(ops, k - 1), ops[k - 1], id);
      EvaluatedAtMostOnce(ops, k - 1, id);
      EvaluatedAtMostOnce(ops, k, id);
      assert OutcomeAt(ops, k - 1) == Step(After(ops, k - 1), ops[k - 1]).1;
    }
  }

  /** The start that saved the row, whether it then failed or not. */
  predicate BeganAt(ops: seq<Op>, k: nat, id: Id) {
    k < |ops| && ops[k].Start? && ops[k].id == id && (OutcomeAt(ops, k).Started? || OutcomeAt(ops, k).HalfStarted?)
  }

  function Minutes(mode: Mode): nat { if mode == SHORT then 30 else if mode == STANDARD then 45 else 60 }

  /** Every interview was started; its scheduled end, stored unless the start failed, is a mode's duration later. */
  lemma {:induction false} ScheduledAtStart(ops: seq<Op>, k: nat, id: Id)
    requires k <= |ops| && id in After(ops, k).interviews
    ensures exists i: nat :: i < k && BeganAt(ops, i, id)
              && DueAt(After(ops, k).interviews[id]) == After(ops, i).now + Minutes(ops[i].mode) * 60_000
              && After(ops, k).interviews[id].scheduledEndAt
                 == if OutcomeAt(ops, i).Started? then Some(DueAt(After(ops, k).interviews[id])) else None
  {
    hide Step;
    RunsKeepViews(ops, k, id);
    RunsKeepViews(ops, k - 1, id);
    StepOnView(After(ops, k - 1), ops[k - 1], id);
    if id in After(ops, k - 1).interviews {
      ScheduledAtStart(ops, k - 1, id);
      var i: nat :| i < k - 1 && BeganAt(ops, i, id)
        && DueAt(After(ops, k - 1).interviews[id]) == After(ops, i).now + Minutes(ops[i].mode) * 60_000
        && After(ops, k - 1).interviews[id].scheduledEndAt
           == if OutcomeAt(ops, i).Started? then Some(DueAt(After(ops, k - 1).interviews[id])) else None;
    } else {
      assert Targets(ops[k - 1], id) by {
        if !Targets(ops[k - 1], id) {
          OthersUntouched(After(ops, k - 1), ops[k - 1], id);
        }
      }
      assert BeganAt(ops, k - 1, id);
    }
  }

  // ---------------------------------------------------------------- interviews without a job

  /** The step leaves an interview ACTIVE and takes its job, or never adds it. */
  predicate LosesJob(s: State, op: Op, id: Id) {
    && Targets(op, id)
    && match Step(s, op).1
       case HalfStarted => op.Start? && op.failure == AtQueue   // the queue did not take the job
       case Unsaved => true                                     // the user's end removed it, and could not save
       case Failed => op.DeliverFails?                          // a delivery could not save
       case _ => false
  }

  predicate JobLostAt(ops: seq<Op>, k: nat, id: Id) {
    k < |ops| && LosesJob(After(ops, k), ops[k], id)
  }

  /** Once an interview is known no step gives it a job; while it is ACTIVE one of these takes it, and nothing else. */
  lemma StepOnJob(s: State, op: Op, id: Id)
    requires ViewOk(s.now, ViewOf(s, id))
    ensures var (t, out) := Step(s, op);
            && (Active(ViewOf(t, id)) ==>
                  (id in t.jobs <==> (id in s.jobs || id !in s.interviews) && !LosesJob(s, op, id)))
            && (id !in t.interviews ==> !LosesJob(s, op, id))
            && (Active(ViewOf(s, id)) && id !in s.jobs && out.Ended? && Targets(op, id) ==> op.EndByUser?)
  {
    if !Targets(op, id) {
      OthersUntouched(s, op, id);
      assert ViewOf(Step(s, op).0, id).dueAt == ViewOf(s, id).dueAt;
      assert ViewOf(Step(s, op).0, id).row == ViewOf(s, id).row;
    }
  }

  lemma {:induction false} JobIffNotLost(ops: seq<Op>, k: nat, id: Id)
    requires k <= |ops|
    ensures Active(ViewOf(After(ops, k), id)) ==>
              (id in After(ops, k).jobs <==> forall i: nat | i < k :: !JobLostAt(ops, i, id))
    ensures id !in After(ops, k).interviews ==> forall i: nat | i < k :: !JobLostAt(ops, i, id)
  {
    hide Step, LosesJob, ViewOk;
    if k > 0 {
      var s := After(ops, k - 1);
      JobIffNotLost(ops, k - 1, id);
      RunsKeepViews(ops, k - 1, id);
      StepOnJob(s, ops[k - 1], id);
      StepOnView(s, ops[k - 1], id);
      if id in s.interviews {
        NotAbandoned(s, id);
      }
      assert JobLostAt(ops, k - 1, id) <==> LosesJob(s, ops[k - 1], id);
    }
  }

  lemma NotAbandoned(s: State, id: Id)
    requires ViewOk(s.now, ViewOf(s, id)) && id in s.interviews
    ensures Active(ViewOf(s, id)) || Completed(ViewOf(s, id))
  {}

  /**
   The timeout job of an ACTIVE interview is waiting or running, due when the interview's time is up, exactly
   when it was not lost: the start got it into the queue, no delivery of it failed to save, and no end by
   the user removed it and then failed to save.
   */
  lemma ActiveHasItsJob(ops: seq<Op>, k: nat, id: Id)
    requires k <= |ops| && Active(ViewOf(After(ops, k), id))
    ensures var s := After(ops, k);
            && (id in s.jobs <==> forall i: nat | i < k :: !JobLostAt(ops, i, id))
            && (id in s.jobs ==> s.jobs[id] == DueAt(s.interviews[id]) && id !in s.failed)
  {
    hide Step;
    RunsKeepViews(ops, k, id);
    JobIffNotLost(ops, k, id);
  }

  /** A delivery of the interview's due job fails in the store, before COMPLETED is saved. */
  predicate DeliveryFailedAt(ops: seq<Op>, k: nat, id: Id) {
    k < |ops| && ops[k] == DeliverFails(id) && OutcomeAt(ops, k) == Failed
  }

  /** The user's end removes the job, and cannot save COMPLETED. */
  predicate UnsavedAt(ops: seq<Op>, k: nat, id: Id) {
    k < |ops| && Targets(ops[k], id) && OutcomeAt(ops, k) == Unsaved
  }

  lemma StepOnFailed(s: State, op: Op, id: Id)
    requires ViewOk(s.now, ViewOf(s, id))
    ensures var (t, out) := Step(s, op);
            Active(ViewOf(t, id)) ==>
              (id in t.failed <==> (op == DeliverFails(id) && out == Failed)
                                   || (id in s.failed && !(Targets(op, id) && out == Unsaved)))
  {
    if !Targets(op, id) {
      OthersUntouched(s, op, id);
      assert ViewOf(Step(s, op).0, id).jobFailed == ViewOf(s, id).jobFailed;
    }
  }

  lemma FailedDeliveryLosesJob(ops: seq<Op>, k: nat, id: Id)
    ensures DeliveryFailedAt(ops, k, id) ==> JobLostAt(ops, k, id)
  {
    hide DoDeliverFails;
  }

  /** The queue holds the job of an ACTIVE interview as failed once a delivery failed, until a user's end removes it. */
  lemma {:induction false} FailedIffDeliveryFailed(ops: seq<Op>, k: nat, id: Id)
    requires k <= |ops| && Active(ViewOf(After(ops, k), id))
    ensures id in After(ops, k).failed <==>
      exists i: nat :: i < k && DeliveryFailedAt(ops, i, id) && forall j: nat | i < j < k :: !UnsavedAt(ops, j, id)
  {
    hide Step, JobLostAt;
    var s := After(ops, k - 1);
    RunsKeepViews(ops, k - 1, id);
    StepOnFailed(s, ops[k - 1], id);
    StepOnView(s, ops[k - 1], id);
    if id in s.interviews {
      NotAbandoned(s, id);
      FailedIffDeliveryFailed(ops, k - 1, id);
    } else {
      JobIffNotLost(ops, k - 1, id);
      forall i: nat | i < k - 1 ensures !DeliveryFailedAt(ops, i, id) {
        FailedDeliveryLosesJob(ops, i, id);
      }
      assert ViewOf(s, id).row.None?;
    }
    assert DeliveryFailedAt(ops, k - 1, id)
      <==> ops[k - 1] == DeliverFails(id) && Step(s, ops[k - 1]).1 == Failed;
    assert UnsavedAt(ops, k - 1, id) <==> Targets(ops[k - 1], id) && Step(s, ops[k - 1]).1 == Unsaved;
  }

  /**
   An ACTIVE interview whose job is lost stays so, whatever happens to it, until its user ends it: it is
   COMPLETED later exactly when one of the steps in between was an end by the user that succeeded.
   */
  lemma {:induction false} OnlyTheUserEndsJobless(ops: seq<Op>, i: nat, k: nat, id: Id)
    requires i <= k <= |ops| && Active(ViewOf(After(ops, i), id)) && id !in After(ops, i).jobs
    ensures Completed(ViewOf(After(ops, k), id))
      <==> exists j: nat :: i <= j < k && EndedAt(ops, j, id) && ops[j].EndByUser?
    ensures !Completed(ViewOf(After(ops, k), id)) ==>
              Active(ViewOf(After(ops, k), id)) && id !in After(ops, k).jobs
  {
    hide Step, LosesJob;
    if i < k {
      var s := After(ops, k - 1);
      OnlyTheUserEndsJobless(ops, i, k - 1, id);
      RunsKeepViews(ops, k - 1, id);
      StepOnView(s, ops[k - 1], id);
      StepOnJob(s, ops[k - 1], id);
      if Active(ViewOf(s, id)) && EndedAt(ops, k - 1, id) {
        assert ops[k - 1].EndByUser?;
      }
    }
  }

  // ---------------------------------------------------------------- draining the queue

  /** The worker delivers the jobs of the listed interviews and finishes their evaluations. */
  function Drain(s: State, ids: seq<Id>, lookups: seq<Option<int>>): State
    requires |ids| == |lookups|
    decreases |ids|
  {
    if ids == [] then s else
    Drain(Step(Step(s, Deliver(ids[0], lookups[0])).0, FinishEvaluation(ids[0], true)).0, ids[1..], lookups[1..])
  }

  lemma DrainOne(s: State, first: Id, lookup: Option<int>, id: Id)
    requires ViewOk(s.now, ViewOf(s, id)) && id in s.interviews
    ensures var t := Step(Step(s, Deliver(first, lookup)).0, FinishEvaluation(first, true)).0;
            && t.now == s.now && ViewOk(t.now, ViewOf(t, id)) && id in t.interviews
            && (Completed(ViewOf(s, id)) ==> Completed(ViewOf(t, id)))
            && (id != first || (Active(ViewOf(s, id)) && id !in s.jobs) ==> ViewOf(t, id) == ViewOf(s, id))
            && (id == first && Active(ViewOf(s, id)) && id in s.jobs && DueAt(s.interviews[id]) <= s.now ==>
                  Completed(ViewOf(t, id)) && t.evaluations[id] == 1)
  {
    var m := Step(s, Deliver(first, lookup)).0;
    if id != first {
      OthersUntouched(s, Deliver(first, lookup), id);
      OthersUntouched(m, FinishEvaluation(first, true), id);
    } else {
      StepKeepsView(s, Deliver(first, lookup), id);
      StepKeepsView(m, FinishEvaluation(first, true), id);
    }
  }

  lemma {:induction false} DrainCompletesIff(s: State, ids: seq<Id>, lookups: seq<Option<int>>, id: Id)
    requires |ids| == |lookups| && ViewOk(s.now, ViewOf(s, id)) && id in s.interviews
    requires DueAt(s.interviews[id]) <= s.now && (id in s.jobs ==> id in ids)
    ensures Completed(ViewOf(Drain(s, ids, lookups), id)) <==> Completed(ViewOf(s, id)) || id in s.jobs
    decreases |ids|
  {
    hide Step;
    if ids != [] {
      var t := Step(Step(s, Deliver(ids[0], lookups[0])).0, FinishEvaluation(ids[0], true)).0;
      DrainOne(s, ids[0], lookups[0], id);
      if Completed(ViewOf(t, id)) {
        DrainKeepsCompleted(t, ids[1..], lookups[1..], id);
      } else {
        assert ViewOf(t, id) == ViewOf(s, id);
        assert id in t.jobs <==> ViewOf(t, id).dueAt.Some?;
        assert id in t.jobs ==> id in ids[1..];
        DrainCompletesIff(t, ids[1..], lookups[1..], id);
      }
    }
  }

  lemma {:induction false} DrainKeepsCompleted(s: State, ids: seq<Id>, lookups: seq<Option<int>>, id: Id)
    requires |ids| == |lookups| && ViewOk(s.now, ViewOf(s, id)) && Completed(ViewOf(s, id))
    ensures Completed(ViewOf(Drain(s, ids, lookups), id))
    decreases |ids|
  {
    hide Step;
    if ids != [] {
      DrainOne(s, ids[0], lookups[0], id);
      var t := Step(Step(s, Deliver(ids[0], lookups[0])).0, FinishEvaluation(ids[0], true)).0;
      DrainKeepsCompleted(t, ids[1..], lookups[1..], id);
    }
  }

  /**
   After any run, when an interview's time is up and the worker drains the queue without store failures,
   the interview is COMPLETED exactly when it already was or its job was never lost; and a queue without
   due jobs leaves no other interview ACTIVE than one whose job was lost.
   */
  lemma OverdueCompletedIff(ops: seq<Op>, k: nat, id: Id, ids: seq<Id>, lookups: seq<Option<int>>)
    requires k <= |ops| && id in After(ops, k).interviews && DueAt(After(ops, k).interviews[id]) <= After(ops, k).now
    requires |ids| == |lookups| && forall o | o in After(ops, k).jobs :: o in ids
    ensures Completed(ViewOf(Drain(After(ops, k), ids, lookups), id))
      <==> Completed(ViewOf(After(ops, k), id)) || forall i: nat | i < k :: !JobLostAt(ops, i, id)
    ensures (forall o | o in After(ops, k).jobs :: After(ops, k).jobs[o] > After(ops, k).now) ==>
              Completed(ViewOf(After(ops, k), id)) || exists i: nat :: i < k && JobLostAt(ops, i, id)
  {
    hide Step, Drain, JobLostAt;
    RunsKeepViews(ops, k, id);
    DrainCompletesIff(After(ops, k), ids, lookups, id);
    JobIffNotLost(ops, k, id);
  }

  /** An end by the user whose save fails strands the interview: no drain ever completes it. */
  lemma UnsavedEndStrands(id: Id, userId: nat, ids: seq<Id>, lookups: seq<Option<int>>)
    requires |ids| == |lookups|
    ensures var ops := [Start(id, userId, SHORT, NoFailure), EndByUser(id, userId, None, None, true, false),
                        Advance(1_800_000)];
            var s := After(ops, 3);
            id in s.interviews && DueAt(s.interviews[id]) <= s.now && Active(ViewOf(Drain(s, ids, lookups), id))
  {
    var ops := [Start(id, userId, SHORT, NoFailure), EndByUser(id, userId, None, None, true, false),
                Advance(1_800_000)];
    var row := Interview(userId, SHORT, ACTIVE, 0, Some(1_800_000), None, None, None);
    assert After(ops, 1) == EMPTY.(interviews := map[id := row], jobs := map[id := 1_800_000]) by {
      assert After(ops, 0) == EMPTY;
    }
    assert After(ops, 2) == EMPTY.(interviews := map[id := row]);
    assert After(ops, 3) == EMPTY.(interviews := map[id := row], now := 1_800_000);
    RunsKeepViews(ops, 3, id);
    DrainLeavesJobless(After(ops, 3), ids, lookups, id);
  }

  lemma {:induction false} DrainLeavesJobless(s: State, ids: seq<Id>, lookups: seq<Option<int>>, id: Id)
    requires |ids| == |lookups| && ViewOk(s.now, ViewOf(s, id)) && Active(ViewOf(s, id)) && id !in s.jobs
    ensures ViewOf(Drain(s, ids, lookups), id) == ViewOf(s, id)
    decreases |ids|
  {
    hide Step;
    if ids != [] {
      DrainOne(s, ids[0], lookups[0], id);
      var t := Step(Step(s, Deliver(ids[0], lookups[0])).0, FinishEvaluation(ids[0], true)).0;
      assert ViewOf(t, id).dueAt == ViewOf(s, id).dueAt && ViewOf(t, id).row == ViewOf(s, id).row;
      DrainLeavesJobless(t, ids[1..], lookups[1..], id);
    }
  }

  // ---------------------------------------------------------------- the code that is judged

  datatype Written = Written(code: Option<string>, language: Option<string>)

  /** A snapshot, or a chat message that carries code, by the owner of an ACTIVE interview. */
  predicate Writes(s: State, op: Op, id: Id) {
    && Targets(op, id) && (op.Snapshot? || (op.Chat? && op.chatCode.Some? && op.chatCode.value != ""))
    && id in s.interviews && s.interviews[id].userId == op.userId && s.interviews[id].status == ACTIVE
  }

  /** The last code written in the first k steps. */
  function LastWrite(ops: seq<Op>, k: nat, id: Id): Written
    requires k <= |ops|
  {
    if k == 0 then Written(None, None)
    else if Writes(After(ops, k - 1), ops[k - 1], id) then
      if ops[k - 1].Snapshot? then Written(Some(ops[k - 1].code), Some(ops[k - 1].language))
      else Written(ops[k - 1].chatCode, ops[k - 1].chatLanguage)
    else LastWrite(ops, k - 1, id)
  }

  /** The code that the row stores; nothing when there is no row. */
  function CodeOf(s: State, id: Id): Written {
    if id in s.interviews then Written(s.interviews[id].latestCode, s.interviews[id].codeLanguage)
    else Written(None, None)
  }

  lemma StepOnCode(s: State, op: Op, id: Id)
    ensures var t := Step(s, op).0;
            CodeOf(t, id) == if !Writes(s, op, id) then CodeOf(s, id)
                             else if op.Snapshot? then Written(Some(op.code), Some(op.language))
                             else Written(op.chatCode, op.chatLanguage)
  {
    if !Targets(op, id) {
      OthersUntouched(s, op, id);
      assert ViewOf(Step(s, op).0, id).row == ViewOf(s, id).row;
    }
  }

  /** The row stores the last code written by either writer while the interview was ACTIVE. */
  lemma {:induction false} CodeIsLastWrite(ops: seq<Op>, k: nat, id: Id)
    requires k <= |ops|
    ensures CodeOf(After(ops, k), id) == LastWrite(ops, k, id)
  {
    hide Step, Writes;
    if k > 0 {
      CodeIsLastWrite(ops, k - 1, id);
      StepOnCode(After(ops, k - 1), ops[k - 1], id);
    }
  }

  /**
   An automatic end judges the last code written while the interview was ACTIVE, whichever of
   snapshot and chat wrote it; it judges nothing when that code is empty or absent, or when its
   language is not known.
   */
  lemma AutoEndJudgesLastWrite(ops: seq<Op>, k: nat, id: Id)
    requires EndedAt(ops, k, id) && ops[k].Deliver?
    ensures var last := LastWrite(ops, k, id);
            OutcomeAt(ops, k).judged
            == if last.code.Some? && last.code.value != "" && last.language.Some? && last.language.value != ""
                  && ops[k].lookup.Some? && ops[k].lookup.value != 0
               then Some(Judged(last.code.value, ops[k].lookup.value)) else None
  {
    CodeIsLastWrite(ops, k, id);
  }

  /** Once an interview is COMPLETED its code stays as it was: nothing is written any more. */
  lemma {:induction false} NoWriteAfterEnd(ops: seq<Op>, i: nat, k: nat, id: Id)
    requires i <= k <= |ops| && Completed(ViewOf(After(ops, i), id))
    ensures LastWrite(ops, k, id) == LastWrite(ops, i, id)
  {
    hide Step;
    if i < k {
      NoWriteAfterEnd(ops, i, k - 1, id);
      CompletedForGood(ops, i, k - 1, id);
    }
  }

  // ---------------------------------------------------------------- ends by the user

  /**
   After any run, the owner's end of an interview succeeds exactly when it is ACTIVE, its job, if any, can be
   removed, and the save succeeds: it judges what the request carries, and leaves no job.  A save that fails
   leaves the interview ACTIVE without its job; every other refusal changes nothing.
   */
  lemma UserEndSucceedsIff(ops: seq<Op>, k: nat, op: Op)
    requires k <= |ops| && op.EndByUser? && op.id in After(ops, k).interviews
    requires After(ops, k).interviews[op.id].userId == op.userId
    ensures var s := After(ops, k);
            var (t, out) := Step(s, op);
            var cancels := Active(ViewOf(s, op.id)) && (op.id !in s.jobs || op.removable);
            && (out.Ended? <==> cancels && op.saved)
            && (out.Ended? ==> (
                  && out.judged == (if op.sentCode.Some? && op.sentCode.value != ""
                                       && op.sentLanguage.Some? && op.sentLanguage.value != 0
                                    then Some(Judged(op.sentCode.value, op.sentLanguage.value)) else None)
                  && Completed(ViewOf(t, op.id))
                  && t.interviews[op.id].endedAt == Some(s.now) && op.id !in t.jobs && op.id !in t.failed))
            && (out == Unsaved <==> cancels && !op.saved)
            && (out == Unsaved ==> t == s.(jobs := s.jobs - {op.id}, failed := s.failed - {op.id}))
            && (!out.Ended? && out != Unsaved ==> t == s)
  {
    RunsKeepViews(ops, k, op.id);
  }

  // ---------------------------------------------------------------- requests and deliveries one by one

  /**
   What a request of a user is answered: strangers find nothing, an interview that is over takes no code and
   is not ended again, and a locked job stops an end.  Only what is stored changes anything.
   */
  lemma RequestsAnswered(s: State, op: Op)
    requires op.Snapshot? || op.Chat? || op.EndByUser?
    ensures var (t, out) := Step(s, op);
            var known := op.id in s.interviews && s.interviews[op.id].userId == op.userId;
            && (out == NotFound <==> !known)
            && (known && s.interviews[op.id].status != ACTIVE && !op.EndByUser? ==> out == NotActive)
            && (known && s.interviews[op.id].status == COMPLETED && op.EndByUser? ==> out == AlreadyEnded)
            && (known && s.interviews[op.id].status == ACTIVE ==>
                  match op
                  case Snapshot(_, _, _, _) => out == Stored
                  case Chat(_, _, code, _) => out == if code.Some? && code.value != "" then Stored else Answered
                  case EndByUser(_, _, _, _, removable, saved) =>
                    if op.id in s.jobs && !removable then out == Failed
                    else if saved then out.Ended? else out == Unsaved)
            && (out != Stored && !out.Ended? && out != Unsaved ==> t == s)
            && (out == Stored ==> t.jobs == s.jobs && t.failed == s.failed
                                  && t.evaluating == s.evaluating && t.evaluations == s.evaluations)
  {}

  /** A second start under the same id is refused. */
  lemma StartOnce(s: State, op: Op)
    requires op.Start?
    ensures op.id in s.interviews <==> Step(s, op) == (s, Failed)
    ensures op.id !in s.interviews ==> Step(s, op).1 == match op.failure
                                         case NoFailure => Started(s.now + Minutes(op.mode) * 60_000)
                                         case _ => HalfStarted
  {}

  predicate Due(s: State, id: Id) { id in s.jobs && s.jobs[id] <= s.now }

  /**
   What a delivery does: nothing before its time, an end of an ACTIVE interview, and otherwise it is done with
   the job.  A delivery that fails moves the job to the failed ones.
   */
  lemma DeliveryMeans(s: State, id: Id, lookup: Option<int>)
    ensures var (t, out) := Step(s, Deliver(id, lookup));
            var active := id in s.interviews && s.interviews[id].status == ACTIVE;
            && (out.Ended? <==> Due(s, id) && active) && (out == Skipped <==> Due(s, id) && !active)
            && (!Due(s, id) ==> out == Quiet && t == s)
            && (out == Skipped ==> t == s.(jobs := s.jobs - {id}))
            && (out.Ended? ==> t.jobs == s.jobs && t.failed == s.failed && t.interviews == s.interviews[id :=
                  s.interviews[id].(status := COMPLETED, endedAt := Some(s.now))])
    ensures Step(s, DeliverFails(id))
         == if Due(s, id) then (s.(jobs := s.jobs - {id}, failed := s.failed + {id}), Failed) else (s, Quiet)
  {
    hide ToJudge, StoredJudged;
  }

  /** The evaluation after an end is done with the job; when it fails, the queue keeps that job as failed. */
  lemma FinishMeans(s: State, id: Id, ok: bool)
    ensures var (t, out) := Step(s, FinishEvaluation(id, ok));
            && t.interviews == s.interviews && t.now == s.now
            && (s.evaluating[id] == 0 ==> t == s)
            && (s.evaluating[id] > 0 ==>
                  t.jobs == s.jobs - {id} && (id in t.failed <==> id in s.failed || (!ok && id in s.jobs))
                  && forall o | o != id :: o in t.failed <==> o in s.failed)
  {}

  // ---------------------------------------------------------------- the services

  /** AiInterviewService, AiChatService and InterviewTimeoutService over the tables and the queue they share. */
  class InterviewServices {
    var now: int
    var interviews: map<Id, Interview>
    var jobs: map<Id, int>
    var failed: set<Id>
    var evaluating: multiset<Id>
    var evaluations: multiset<Id>

    constructor ()
      ensures Now() == EMPTY
    {
      now := 0;
      interviews, jobs, failed := map[], map[], {};
      evaluating, evaluations := multiset{}, multiset{};
    }

    ghost function Now(): State
      reads this
    {
      State(now, interviews, jobs, failed, evaluating, evaluations)
    }

    method ScheduleTimeout(id: Id, mode: Mode) returns (scheduledEndAt: int)
      modifies this`jobs
      ensures scheduledEndAt == now + DurationMs(mode) && jobs == old(jobs)[id := scheduledEndAt]
    {
      var durationMs := DurationMs(mode);
      scheduledEndAt := now + durationMs;
      jobs := jobs[id := now + durationMs];
    }

    /** Removing a job that a worker holds locked throws; thrown tells. */
    method CancelTimeout(id: Id, removable: bool) returns (thrown: bool)
      modifies this`jobs, this`failed
      ensures thrown <==> id in old(jobs) && !removable
      ensures jobs == (if thrown then old(jobs) else old(jobs) - {id})
      ensures failed == (if thrown then old(failed) else old(failed) - {id})
    {
      if id in jobs && !removable {
        return true;
      }
      jobs := jobs - {id};
      failed := failed - {id};
      thrown := false;
    }

    method StartInterview(id: Id, userId: nat, mode: Mode, failure: StartFailure) returns (out: Outcome)
      modifies this
      ensures (Now(), out) == Step(old(Now()), Start(id, userId, mode, failure))
    {
      if id in interviews {
        return Failed;
      }
      var interview := Interview(userId, mode, ACTIVE, now, None, None, None, None);
      interviews := interviews[id := interview];
      if failure == AtQueue {
        return HalfStarted;
      }
      var endAt := ScheduleTimeout(id, mode);
      if failure == AtSave {
        return HalfStarted;
      }
      interviews := interviews[id := interview.(scheduledEndAt := Some(endAt))];
      assert interviews == old(interviews)[id := interview.(scheduledEndAt := Some(endAt))];
      out := Started(endAt);
    }

    method StoreCodeSnapshot(id: Id, userId: nat, code: string, language: string) returns (out: Outcome)
      modifies this`interviews
      ensures (Now(), out) == Step(old(Now()), Snapshot(id, userId, code, language))
    {
      if id !in interviews || interviews[id].userId != userId {
        return NotFound;
      }
      var interview := interviews[id];
      if interview.status != ACTIVE {
        return NotActive;
      }
      interviews := interviews[id := interview.(latestCode := Some(code), codeLanguage := Some(language))];
      out := Stored;
    }

    method SendMessage(id: Id, userId: nat, code: Option<string>, language: Option<string>) returns (out: Outcome)
      modifies this`interviews
      ensures (Now(), out) == Step(old(Now()), Chat(id, userId, code, language))
    {
      if id !in interviews || interviews[id].userId != userId {
        return NotFound;
      }
      var interview := interviews[id];
      if interview.status != ACTIVE {
        return NotActive;
      }
      if code.Some? && code.value != "" {
        interviews := interviews[id := interview.(latestCode := code, codeLanguage := language)];
        return Stored;
      }
      out := Answered;
    }

    /** endInterview up to the point where COMPLETED is saved, or that save throws. */
    method EndInterview(id: Id, userId: nat, code: Option<string>, languageId: Option<int>, removable: bool,
                        saved: bool)
      returns (out: Outcome)
      modifies this
      ensures (Now(), out) == Step(old(Now()), EndByUser(id, userId, code, languageId, removable, saved))
    {
      if id !in interviews || interviews[id].userId != userId {
        return NotFound;
      }
      var interview := interviews[id];
      if interview.status == COMPLETED {
        return AlreadyEnded;
      }
      var thrown := CancelTimeout(id, removable);
      if thrown {
        return Failed;
      }
      if !saved {
        return Unsaved;
      }
      interviews := interviews[id := interview.(status := COMPLETED, endedAt := Some(now))];
      evaluating := evaluating + multiset{id};
      out := Ended(ToJudge(code, languageId));
    }

    /** autoEndInterview up to the point where COMPLETED is saved, for a delivery of the job. */
    method AutoEndInterview(id: Id, lookup: Option<int>) returns (out: Outcome)
      modifies this
      ensures (Now(), out) == Step(old(Now()), Deliver(id, lookup))
    {
      if id !in jobs || now < jobs[id] {
        return Quiet;
      }
      if id !in interviews || interviews[id].status != ACTIVE {
        jobs := jobs - {id};
        return Skipped;
      }
      var interview := interviews[id];
      var sourceCode: Option<string> := None;
      var languageId: Option<int> := None;
      if interview.latestCode.Some? && interview.latestCode.value != "" {
        sourceCode := interview.latestCode;
        if interview.codeLanguage.Some? && interview.codeLanguage.value != "" {
          languageId := lookup;
        }
      }
      interviews := interviews[id := interview.(status := COMPLETED, endedAt := Some(now))];
      evaluating := evaluating + multiset{id};
      out := Ended(if sourceCode.Some? && languageId.Some? && languageId.value != 0
                   then Some(Judged(sourceCode.value, languageId.value)) else None);
    }

    /** What follows phase A in both ends: an evaluation row, or an exception. */
    method SaveEvaluation(id: Id, ok: bool) returns (out: Outcome)
      modifies this
      ensures (Now(), out) == Step(old(Now()), FinishEvaluation(id, ok))
    {
      if id !in evaluating {
        return Quiet;
      }
      evaluating := evaluating - multiset{id};
      if ok {
        evaluations := evaluations + multiset{id};
        out := Evaluated;
      } else {
        if id in jobs {
          failed := failed + {id};
        }
        out := Failed;
      }
      jobs := jobs - {id};
    }
  }
}
