/**
 SubmissionsService.updateSubmissionAfterJudge with UserProgressService: what repeated deliveries
 of a verdict, and a failure at any point after the save, do to the stored verdict, the user's
 progress and the emitted events.

 Deliveries are serialised.  A submission and its progress row are created by separate steps: a
 contest submission goes to the judge before its progress row is there.
 */
module JudgeEvents {
  import opened Wrappers

  datatype SubmissionStatus = ACCEPTED | OTHER(code: nat)

  datatype ProgressStatus = NOT_STARTED | ATTEMPTED | SOLVED

  datatype Verdict = Verdict(status: SubmissionStatus, passedTestcases: nat, totalTestcases: nat,
                             runtimeMs: Option<int>, memoryKb: Option<int>)

  datatype Submission = Submission(userId: nat, problemId: nat, verdict: Option<Verdict>)

  datatype Event =
    | Judged(submissionId: nat, verdict: Verdict)
    | Accepted(submissionId: nat)
    | ProblemSolved(submissionId: nat, userId: nat, problemId: nat)

  /** Where a delivery throws: before or in the save, in the progress update, or after n events are out. */
  datatype Crash = AtSave | AtProgress | AfterEvents(n: nat)

  datatype State = State(submissions: map<nat, Submission>, progress: map<(nat, nat), ProgressStatus>,
                         events: seq<Event>)

  datatype Op =
    | Submit(id: nat, userId: nat, problemId: nat)
    | Track(userId: nat, problemId: nat)
    | Deliver(id: nat, verdict: Verdict, crash: Crash)

  const EMPTY := State(map[], map[], [])

  // ---------------------------------------------------------------- one step

  function DoSubmit(s: State, id: nat, userId: nat, problemId: nat): State {
    if id in s.submissions then s else s.(submissions := s.submissions[id := Submission(userId, problemId, None)])
  }

  /** updateProgressOnSubmit. */
  function DoTrack(s: State, key: (nat, nat)): State {
    if key in s.progress then s else s.(progress := s.progress[key := ATTEMPTED])
  }

  /** updateProgressAfterJudge: the new status and whether the problem is newly solved. */
  function Advance(progress: map<(nat, nat), ProgressStatus>, key: (nat, nat), status: SubmissionStatus)
    : (map<(nat, nat), ProgressStatus>, bool)
  {
    if key !in progress then (progress, false)
    else if status == ACCEPTED then (progress[key := SOLVED], progress[key] != SOLVED)
    else if progress[key] == NOT_STARTED then (progress[key := ATTEMPTED], false)
    else (progress, false)
  }

  /** The events of one delivery, in order. */
  function Events(id: nat, sub: Submission, v: Verdict, newlySolved: bool): seq<Event> {
    [Judged(id, v)] + (if v.status == ACCEPTED then [Accepted(id)] else [])
    + (if newlySolved then [ProblemSolved(id, sub.userId, sub.problemId)] else [])
  }

  function DoDeliver(s: State, id: nat, v: Verdict, crash: Crash): State {
    if id !in s.submissions || s.submissions[id].verdict.Some? || crash == AtSave then s else
    var sub := s.submissions[id];
    var saved := s.(submissions := s.submissions[id := sub.(verdict := Some(v))]);
    if crash == AtProgress then saved else
    var (progress, newlySolved) := Advance(s.progress, (sub.userId, sub.problemId), v.status);
    var events := Events(id, sub, v, newlySolved);
    State(saved.submissions, progress, s.events + (if crash.n < |events| then events[..crash.n] else events))
  }

  function Step(s: State, op: Op): State {
    match op
    case Submit(id, userId, problemId) => DoSubmit(s, id, userId, problemId)
    case Track(userId, problemId) => DoTrack(s, (userId, problemId))
    case Deliver(id, v, crash) => DoDeliver(s, id, v, crash)
  }

  function After(ops: seq<Op>, k: nat): State
    requires k <= |ops|
  {
    if k == 0 then EMPTY else Step(After(ops, k - 1), ops[k - 1])
  }

  // ---------------------------------------------------------------- what every run keeps

  /** An event tells the truth about the tables, and no announcement is made twice. */
  ghost predicate EventOk(s: State, i: nat)
    requires i < |s.events|
  {
    match s.events[i]
    case Judged(id, v) =>
      && id in s.submissions && s.submissions[id].verdict == Some(v)
      && (forall j | 0 <= j < |s.events| && j != i && s.events[j].Judged? :: s.events[j].submissionId != id)
    case Accepted(id) =>
      && id in s.submissions && s.submissions[id].verdict.Some? && s.submissions[id].verdict.value.status == ACCEPTED
      && i > 0 && s.events[i - 1] == Judged(id, s.submissions[id].verdict.value)
    case ProblemSolved(id, userId, problemId) =>
      && (userId, problemId) in s.progress && s.progress[(userId, problemId)] == SOLVED
      && id in s.submissions && s.submissions[id].userId == userId && s.submissions[id].problemId == problemId
      && i > 0 && s.events[i - 1] == Accepted(id)
      && (forall j | 0 <= j < |s.events| && j != i && s.events[j].ProblemSolved? ::
            (s.events[j].userId, s.events[j].problemId) != (userId, problemId))
  }

  ghost predicate EventsOk(s: State) {
    forall i | 0 <= i < |s.events| :: EventOk(s, i)
  }

  lemma SubmitKeeps(s: State, id: nat, userId: nat, problemId: nat)
    requires EventsOk(s)
    ensures EventsOk(DoSubmit(s, id, userId, problemId))
  {
    var t := DoSubmit(s, id, userId, problemId);
    forall i | 0 <= i < |t.events| ensures EventOk(t, i) {
      assert EventOk(s, i);
    }
  }

  lemma TrackKeeps(s: State, key: (nat, nat))
    requires EventsOk(s)
    ensures EventsOk(DoTrack(s, key))
  {
    var t := DoTrack(s, key);
    forall i | 0 <= i < |t.events| ensures EventOk(t, i) {
      assert EventOk(s, i);
    }
  }

  /** What is new after a delivery. */
  lemma DeliverEffect(s: State, id: nat, v: Verdict, crash: Crash)
    requires id in s.submissions && s.submissions[id].verdict.None? && crash.AfterEvents?
    ensures var t := DoDeliver(s, id, v, crash);
            var sub, m := s.submissions[id], |s.events|;
            var key := (sub.userId, sub.problemId);
            && t.submissions == s.submissions[id := sub.(verdict := Some(v))]
            && (forall k | k in s.progress :: k in t.progress && (s.progress[k] == SOLVED ==> t.progress[k] == SOLVED))
            && m <= |t.events| <= m + 3 && t.events[..m] == s.events
            && (|t.events| > m ==> t.events[m] == Judged(id, v))
            && (|t.events| > m + 1 ==> v.status == ACCEPTED && t.events[m + 1] == Accepted(id))
            && (|t.events| > m + 2 ==> (
                  && t.events[m + 2] == ProblemSolved(id, sub.userId, sub.problemId)
                  && key in s.progress && s.progress[key] != SOLVED && t.progress[key] == SOLVED))
  {}

  lemma OldEventKeeps(s: State, id: nat, v: Verdict, crash: Crash, i: nat)
    requires EventsOk(s) && id in s.submissions && s.submissions[id].verdict.None? && crash.AfterEvents?
    requires i < |s.events|
    ensures EventOk(DoDeliver(s, id, v, crash), i)
  {
    DeliverEffect(s, id, v, crash);
    var t := DoDeliver(s, id, v, crash);
    hide DoDeliver;
    assert EventOk(s, i);
    assert forall j | 0 <= j < |s.events| :: t.events[j] == t.events[..|s.events|][j] == s.events[j];
  }

  lemma NewEventOk(s: State, id: nat, v: Verdict, crash: Crash, i: nat)
    requires EventsOk(s) && id in s.submissions && s.submissions[id].verdict.None? && crash.AfterEvents?
    requires |s.events| <= i < |DoDeliver(s, id, v, crash).events|
    ensures EventOk(DoDeliver(s, id, v, crash), i)
  {
    DeliverEffect(s, id, v, crash);
    var t := DoDeliver(s, id, v, crash);
    hide DoDeliver;
    forall j | 0 <= j < |s.events| ensures t.events[j] == s.events[j] && EventOk(s, j) {
      assert t.events[j] == t.events[..|s.events|][j];
    }
  }

  lemma DeliverKeeps(s: State, id: nat, v: Verdict, crash: Crash)
    requires EventsOk(s)
    ensures EventsOk(DoDeliver(s, id, v, crash))
  {
    var t := DoDeliver(s, id, v, crash);
    forall i | 0 <= i < |t.events| ensures EventOk(t, i) {
      if id !in s.submissions || s.submissions[id].verdict.Some? || !crash.AfterEvents? {
        assert EventOk(s, i);
      } else if i < |s.events| {
        OldEventKeeps(s, id, v, crash, i);
      } else {
        NewEventOk(s, id, v, crash, i);
      }
    }
  }

  /** Main result: after every run, whatever was redelivered and wherever deliveries failed. */
  lemma {:induction false} EventsAlwaysOk(ops: seq<Op>, k: nat)
    requires k <= |ops|
    ensures EventsOk(After(ops, k))
  {
    if k > 0 {
      EventsAlwaysOk(ops, k - 1);
      match ops[k - 1]
      case Submit(id, userId, problemId) => SubmitKeeps(After(ops, k - 1), id, userId, problemId);
      case Track(userId, problemId) => TrackKeeps(After(ops, k - 1), (userId, problemId));
      case Deliver(id, v, crash) => DeliverKeeps(After(ops, k - 1), id, v, crash);
    }
  }

  /** JUDGED at most once per submission, ACCEPTED at most once, PROBLEM_SOLVED at most once per user and problem. */
  lemma NothingIsAnnouncedTwice(ops: seq<Op>, k: nat, i: nat, j: nat)
    requires k <= |ops| && i < j < |After(ops, k).events|
    ensures var a, b := After(ops, k).events[i], After(ops, k).events[j];
            && (a.Judged? && b.Judged? ==> a.submissionId != b.submissionId)
            && (a.Accepted? && b.Accepted? ==> a.submissionId != b.submissionId)
            && (a.ProblemSolved? && b.ProblemSolved? ==> (a.userId, a.problemId) != (b.userId, b.problemId))
  {
    EventsAlwaysOk(ops, k);
    var s := After(ops, k);
    assert EventOk(s, i) && EventOk(s, j);
    if s.events[i].Accepted? && s.events[j].Accepted? {
      assert EventOk(s, i - 1) && EventOk(s, j - 1);
    }
  }

  /** A delivery reaches the save of a submission that has no verdict yet. */
  predicate SavesAt(ops: seq<Op>, i: nat, id: nat) {
    && i < |ops| && ops[i].Deliver? && ops[i].id == id && ops[i].crash != AtSave
    && id in After(ops, i).submissions
  }

  lemma StepOnVerdict(s: State, op: Op, id: nat)
    ensures var t := Step(s, op);
            && (id in s.submissions ==> id in t.submissions)
            && (id in s.submissions && s.submissions[id].verdict.Some? ==>
                  t.submissions[id] == s.submissions[id])
            && (id in s.submissions && s.submissions[id].verdict.None? ==>
                  t.submissions[id].verdict
                  == if op.Deliver? && op.id == id && op.crash != AtSave then Some(op.verdict) else None)
            && (id !in s.submissions && id in t.submissions ==> t.submissions[id].verdict.None?)
  {}

  /** The verdict kept is that of the first delivery that got as far as the save. */
  lemma {:induction false} FirstVerdictIsKept(ops: seq<Op>, k: nat, id: nat)
    requires k <= |ops| && id in After(ops, k).submissions
    ensures match After(ops, k).submissions[id].verdict
            case None => forall i: nat | i < k :: !SavesAt(ops, i, id)
            case Some(v) => exists i: nat :: i < k && SavesAt(ops, i, id) && ops[i].verdict == v
                              && forall j: nat | j < i :: !SavesAt(ops, j, id)
  {
    hide Step;
    StepOnVerdict(After(ops, k - 1), ops[k - 1], id);
    if id in After(ops, k - 1).submissions {
      FirstVerdictIsKept(ops, k - 1, id);
      if After(ops, k - 1).submissions[id].verdict.None? && After(ops, k).submissions[id].verdict.Some? {
        assert SavesAt(ops, k - 1, id);
      }
    } else {
      NeverSavedBefore(ops, k - 1, id);
    }
  }

  lemma {:induction false} NeverSavedBefore(ops: seq<Op>, k: nat, id: nat)
    requires k <= |ops| && id !in After(ops, k).submissions
    ensures forall i: nat | i < k :: !SavesAt(ops, i, id)
  {
    if k > 0 {
      NeverSavedBefore(ops, k - 1, id);
    }
  }

  // ---------------------------------------------------------------- what is announced, and what is not

  /** The delivery whose verdict is kept. */
  predicate FirstSaveAt(ops: seq<Op>, i: nat) {
    i < |ops| && ops[i].Deliver? && SavesAt(ops, i, ops[i].id) && forall j: nat | j < i :: !SavesAt(ops, j, ops[i].id)
  }

  lemma FirstSaveIff(ops: seq<Op>, i: nat)
    requires i < |ops| && ops[i].Deliver?
    ensures FirstSaveAt(ops, i) <==> SavesAt(ops, i, ops[i].id)
                                     && After(ops, i).submissions[ops[i].id].verdict.None?
  {
    if ops[i].id in After(ops, i).submissions {
      FirstVerdictIsKept(ops, i, ops[i].id);
    }
  }

  predicate Tracked(ops: seq<Op>, k: nat, userId: nat, problemId: nat)
    requires k <= |ops|
  {
    exists j: nat :: j < k && ops[j] == Track(userId, problemId)
  }

  /** The kept verdict of a submission by this user for this problem. */
  predicate VerdictFor(ops: seq<Op>, i: nat, userId: nat, problemId: nat) {
    && FirstSaveAt(ops, i)
    && After(ops, i).submissions[ops[i].id].userId == userId
    && After(ops, i).submissions[ops[i].id].problemId == problemId
  }

  /** A kept verdict ACCEPTED that reaches the progress row, which a submission has created before. */
  predicate SolvesAt(ops: seq<Op>, i: nat, userId: nat, problemId: nat) {
    && VerdictFor(ops, i, userId, problemId) && ops[i].verdict.status == ACCEPTED && ops[i].crash.AfterEvents?
    && Tracked(ops, i, userId, problemId)
  }

  lemma StepOnProgress(s: State, op: Op, key: (nat, nat))
    ensures var t := Step(s, op);
            && (key in t.progress <==> key in s.progress || op == Track(key.0, key.1))
            && (key in t.progress && t.progress[key] == SOLVED
                <==> key in s.progress && (s.progress[key] == SOLVED || SolvesNow(s, op, key)))
  {}

  predicate SolvesNow(s: State, op: Op, key: (nat, nat)) {
    && op.Deliver? && op.id in s.submissions && s.submissions[op.id].verdict.None?
    && op.crash.AfterEvents? && op.verdict.status == ACCEPTED
    && (s.submissions[op.id].userId, s.submissions[op.id].problemId) == key
  }

  /**
   What a kept verdict does to its progress row: ACCEPTED makes it SOLVED, anything else makes NOT_STARTED
   ATTEMPTED and leaves the rest as it was; no other row changes, and none appears.
   */
  lemma ProgressMoves(progress: map<(nat, nat), ProgressStatus>, key: (nat, nat), status: SubmissionStatus)
    ensures var (after, isNewlySolved) := Advance(progress, key, status);
            && after.Keys == progress.Keys
            && (forall other | other in progress && other != key :: after[other] == progress[other])
            && (key in progress && status == ACCEPTED ==> after[key] == SOLVED)
            && (key in progress && status != ACCEPTED && progress[key] == NOT_STARTED ==> after[key] == ATTEMPTED)
            && (key in progress && status != ACCEPTED && progress[key] != NOT_STARTED ==> after[key] == progress[key])
            && (isNewlySolved <==> key in progress && status == ACCEPTED && progress[key] != SOLVED)
  {}

  lemma {:induction false} TrackedHasRow(ops: seq<Op>, k: nat, userId: nat, problemId: nat)
    requires k <= |ops|
    ensures (userId, problemId) in After(ops, k).progress <==> Tracked(ops, k, userId, problemId)
  {
    hide Step;
    if k > 0 {
      TrackedHasRow(ops, k - 1, userId, problemId);
      StepOnProgress(After(ops, k - 1), ops[k - 1], (userId, problemId));
    }
  }

  /**
   A problem is SOLVED for a user exactly when an accepted verdict of theirs was kept, whose delivery got
   past the progress update, after a submission had created the progress row.  A verdict that comes
   before the row, or whose delivery fails in between, never counts, however often it is redelivered.
   */
  lemma {:induction false} SolvedIff(ops: seq<Op>, k: nat, userId: nat, problemId: nat)
    requires k <= |ops|
    ensures var s := After(ops, k);
            (userId, problemId) in s.progress && s.progress[(userId, problemId)] == SOLVED
            <==> exists i: nat :: i < k && SolvesAt(ops, i, userId, problemId)
  {
    hide Step, SavesAt, FirstSaveAt;
    if k > 0 {
      SolvedIff(ops, k - 1, userId, problemId);
      StepOnProgress(After(ops, k - 1), ops[k - 1], (userId, problemId));
      TrackedHasRow(ops, k - 1, userId, problemId);
      SolvesNowIff(ops, k - 1, userId, problemId);
    }
  }

  /** A row that is not SOLVED is ATTEMPTED, whatever wrong answers came. */
  lemma {:induction false} AttemptedUntilSolved(ops: seq<Op>, k: nat, key: (nat, nat))
    requires k <= |ops| && key in After(ops, k).progress
    ensures After(ops, k).progress[key] == SOLVED || After(ops, k).progress[key] == ATTEMPTED
  {
    var s := After(ops, k - 1);
    if key in s.progress {
      AttemptedUntilSolved(ops, k - 1, key);
    }
  }

  /** An accepted contest verdict that overtakes its progress row: nothing is solved, and redelivery does not help. */
  lemma EarlyVerdictIsLost(id: nat, userId: nat, problemId: nat, v: Verdict, crash: Crash) returns (ops: seq<Op>)
    requires v.status == ACCEPTED && crash == AfterEvents(3)
    ensures ops == [Submit(id, userId, problemId), Deliver(id, v, crash), Track(userId, problemId),
                    Deliver(id, v, crash)]
    ensures After(ops, 4).submissions == map[id := Submission(userId, problemId, Some(v))]
    ensures After(ops, 4).progress == map[(userId, problemId) := ATTEMPTED]
    ensures After(ops, 4).events == [Judged(id, v), Accepted(id)]
  {
    ops := [Submit(id, userId, problemId), Deliver(id, v, crash), Track(userId, problemId), Deliver(id, v, crash)];
    var sub := Submission(userId, problemId, None);
    assert After(ops, 1) == Step(EMPTY, ops[0]) by { assert After(ops, 0) == EMPTY; }
    assert After(ops, 1) == State(map[id := sub], map[], []);
    assert After(ops, 2) == DoDeliver(After(ops, 1), id, v, crash);
    assert After(ops, 2) == State(map[id := sub.(verdict := Some(v))], map[], [Judged(id, v), Accepted(id)]);
    assert After(ops, 3) == DoTrack(After(ops, 2), (userId, problemId));
    assert After(ops, 4) == DoDeliver(After(ops, 3), id, v, crash);
  }

  lemma SolvesNowIff(ops: seq<Op>, i: nat, userId: nat, problemId: nat)
    requires i < |ops|
    ensures SolvesAt(ops, i, userId, problemId)
      <==> SolvesNow(After(ops, i), ops[i], (userId, problemId)) && Tracked(ops, i, userId, problemId)
  {
    hide Step, FirstSaveAt;
    if ops[i].Deliver? {
      FirstSaveIff(ops, i);
    } else {
      assert !FirstSaveAt(ops, i) by { NotDelivered(ops, i); }
    }
  }

  lemma NotDelivered(ops: seq<Op>, i: nat)
    requires i < |ops| && !ops[i].Deliver?
    ensures !FirstSaveAt(ops, i)
  {}

  /** The event goes out at step i: what came before it did not fail, and there was something to announce. */
  predicate AnnouncedAt(ops: seq<Op>, i: nat, e: Event) {
    && FirstSaveAt(ops, i) && ops[i].id == e.submissionId && ops[i].crash.AfterEvents?
    && match e
       case Judged(_, v) => ops[i].crash.n >= 1 && ops[i].verdict == v
       case Accepted(_) => ops[i].crash.n >= 2 && ops[i].verdict.status == ACCEPTED
       case ProblemSolved(_, userId, problemId) =>
         ops[i].crash.n >= 3 && SolvesAt(ops, i, userId, problemId)
         && forall j: nat | j < i :: !SolvesAt(ops, j, userId, problemId)
  }

  /** The same, as the tables tell. */
  predicate NewEvent(s: State, op: Op, e: Event) {
    && op.Deliver? && op.id == e.submissionId && op.id in s.submissions && s.submissions[op.id].verdict.None?
    && op.crash.AfterEvents?
    && match e
       case Judged(_, v) => op.crash.n >= 1 && op.verdict == v
       case Accepted(_) => op.crash.n >= 2 && op.verdict.status == ACCEPTED
       case ProblemSolved(_, userId, problemId) =>
         op.crash.n >= 3 && SolvesNow(s, op, (userId, problemId))
         && (userId, problemId) in s.progress && s.progress[(userId, problemId)] != SOLVED
  }

  lemma StepOnEvents(s: State, op: Op, e: Event)
    ensures e in Step(s, op).events <==> e in s.events || NewEvent(s, op, e)
  {
    if op.Deliver? && op.id in s.submissions && s.submissions[op.id].verdict.None? && op.crash.AfterEvents? {
      var sub := s.submissions[op.id];
      var key := (sub.userId, sub.problemId);
      var (_, newlySolved) := Advance(s.progress, key, op.verdict.status);
      var events := Events(op.id, sub, op.verdict, newlySolved);
      EventsWithin(op.id, sub, op.verdict, newlySolved, op.crash.n, e);
      assert Step(s, op).events == s.events + (if op.crash.n < |events| then events[..op.crash.n] else events);
    }
  }

  lemma EventsWithin(id: nat, sub: Submission, v: Verdict, newlySolved: bool, n: nat, e: Event)
    requires newlySolved ==> v.status == ACCEPTED
    ensures var events := Events(id, sub, v, newlySolved);
            e in (if n < |events| then events[..n] else events)
            <==> e.submissionId == id
                 && match e
                    case Judged(_, w) => n >= 1 && w == v
                    case Accepted(_) => n >= 2 && v.status == ACCEPTED
                    case ProblemSolved(_, userId, problemId) =>
                      n >= 3 && newlySolved && sub.userId == userId && sub.problemId == problemId
  {
    var events := Events(id, sub, v, newlySolved);
    assert events[0] == Judged(id, v);
    assert v.status == ACCEPTED ==> events[1] == Accepted(id);
    assert newlySolved ==> events[2] == ProblemSolved(id, sub.userId, sub.problemId);
  }

  lemma NewEventIff(ops: seq<Op>, i: nat, e: Event)
    requires i < |ops|
    ensures AnnouncedAt(ops, i, e) <==> NewEvent(After(ops, i), ops[i], e)
  {
    hide Step, FirstSaveAt, SolvesAt, SolvesNow, Tracked;
    if !ops[i].Deliver? {
      NotDelivered(ops, i);
    } else {
      FirstSaveIff(ops, i);
      if e.ProblemSolved? {
        SolvesNowIff(ops, i, e.userId, e.problemId);
        TrackedHasRow(ops, i, e.userId, e.problemId);
        SolvedIff(ops, i, e.userId, e.problemId);
      }
    }
  }

  /**
   Main result: after every run an event is out exactly when the delivery that was to announce it, the
   one whose verdict is kept, did not fail before it.  JUDGED and ACCEPTED announce that verdict;
   PROBLEM_SOLVED the first verdict that solved the problem for the user.
   */
  lemma {:induction false} AnnouncedIff(ops: seq<Op>, k: nat, e: Event)
    requires k <= |ops|
    ensures e in After(ops, k).events <==> exists i: nat :: i < k && AnnouncedAt(ops, i, e)
  {
    hide Step, NewEvent, AnnouncedAt;
    if k > 0 {
      AnnouncedIff(ops, k - 1, e);
      StepOnEvents(After(ops, k - 1), ops[k - 1], e);
      NewEventIff(ops, k - 1, e);
    }
  }

  // ---------------------------------------------------------------- the service

  class SubmissionsService {
    var submissions: map<nat, Submission>
    var progress: map<(nat, nat), ProgressStatus>
    var events: seq<Event>

    constructor ()
      ensures Now() == EMPTY
    {
      submissions, progress, events := map[], map[], [];
    }

    ghost function Now(): State
      reads this
    {
      State(submissions, progress, events)
    }

    method UpdateProgressOnSubmit(userId: nat, problemId: nat)
      modifies this`progress
      ensures Now() == Step(old(Now()), Track(userId, problemId))
    {
      if (userId, problemId) !in progress {
        progress := progress[(userId, problemId) := ATTEMPTED];
      }
    }

    method UpdateProgressAfterJudge(key: (nat, nat), status: SubmissionStatus) returns (isNewlySolved: bool)
      modifies this`progress
      ensures (progress, isNewlySolved) == Advance(old(progress), key, status)
    {
      isNewlySolved := false;
      if key !in progress {
        return;
      }
      if status == ACCEPTED {
        if progress[key] != SOLVED {
          progress := progress[key := SOLVED];
          isNewlySolved := true;
        } else {
          assert progress == progress[key := SOLVED];
        }
      } else if progress[key] == NOT_STARTED {
        progress := progress[key := ATTEMPTED];
      }
    }

    /** The method returns early where the delivery throws. */
    method UpdateSubmissionAfterJudge(id: nat, verdict: Verdict, crash: Crash)
      modifies this
      ensures Now() == Step(old(Now()), Deliver(id, verdict, crash))
    {
      if id !in submissions {
        return;
      }
      var submission := submissions[id];
      if submission.verdict.Some? || crash == AtSave {
        return;
      }
      submissions := submissions[id := submission.(verdict := Some(verdict))];
      if crash == AtProgress {
        return;
      }
      var isNewlySolved := UpdateProgressAfterJudge((submission.userId, submission.problemId), verdict.status);
      var n := crash.n;
      if n == 0 {
        return;
      }
      events := events + [Judged(id, verdict)];
      if n == 1 {
        return;
      }
      if verdict.status == ACCEPTED {
        events := events + [Accepted(id)];
        if n == 2 {
          return;
        }
      }
      if isNewlySolved {
        events := events + [ProblemSolved(id, submission.userId, submission.problemId)];
      }
    }
  }
}
