/**
 BaseVotesService and the vote half of BaseCommentsService and its subclasses: vote rows, keyed by
 target and user, and the counters stored with each target.  Voting again takes a vote back, but
 not on a problem's comments, where it sets the vote.

 The row that a vote starts from is read before its transaction, so it may be arbitrarily stale:
 it is an input of the step.  Transactions are serialised.  Most vote tables have the pair of
 target and user as their key; discuss_comment_votes has an id of its own and a unique pair.
 */
module Votes {
  import opened Wrappers

  datatype VoteType = UPVOTE | DOWNVOTE

  datatype Counts = Counts(upvoteCount: nat, downvoteCount: nat, voteScore: int)

  datatype State = State(votes: map<(int, int), VoteType>, targets: map<int, Counts>)

  /** How the table identifies a row; sameRow tells whether the row with the id that was read is still stored. */
  datatype Key = Pair | Surrogate(sameRow: bool)

  datatype Op =
    | AddTarget(target: int)
    | Vote(target: int, user: int, voteType: VoteType, seen: Option<VoteType>, key: Key)
    | SetVote(target: int, user: int, voteType: VoteType, seen: Option<VoteType>, key: Key)
    | Unvote(target: int, user: int)

  function Voters(votes: map<(int, int), VoteType>, target: int, ty: VoteType): set<int> {
    set k | k in votes && k.0 == target && votes[k] == ty :: k.1
  }

  /** What the two count queries of updateVoteCounts give. */
  function Tally(votes: map<(int, int), VoteType>, target: int): Counts {
    var up, down := |Voters(votes, target, UPVOTE)|, |Voters(votes, target, DOWNVOTE)|;
    Counts(up, down, up - down)
  }

  function Recount(s: State, target: int): State {
    if target in s.targets then s.(targets := s.targets[target := Tally(s.votes, target)]) else s
  }

  /** A save under its own id, or a new one, that would make a second row for the pair. */
  predicate Clashes(s: State, target: int, user: int, seen: Option<VoteType>, key: Key) {
    key.Surrogate? && (target, user) in s.votes && !(seen.Some? && key.sameRow)
  }

  /** The transaction of vote; a missing target violates the foreign key, a second row the unique pair. */
  function DoVote(s: State, target: int, user: int, ty: VoteType, seen: Option<VoteType>, key: Key): (State, bool) {
    if seen == Some(ty) then (Recount(s.(votes := s.votes - {(target, user)}), target), true)
    else if target !in s.targets || Clashes(s, target, user, seen, key) then (s, false)
    else (Recount(s.(votes := s.votes[(target, user) := ty]), target), true)
  }

  /** voteProblemComment: an equal vote changes nothing, and is not counted again. */
  function DoSetVote(s: State, target: int, user: int, ty: VoteType, seen: Option<VoteType>, key: Key): (State, bool) {
    if target !in s.targets then (s, false)
    else if seen == Some(ty) then (s, true)
    else DoVote(s, target, user, ty, seen, key)
  }

  function Step(s: State, op: Op): (State, bool) {
    match op
    case AddTarget(target) =>
      if target in s.targets then (s, false) else (s.(targets := s.targets[target := Counts(0, 0, 0)]), true)
    case Vote(target, user, ty, seen, key) => DoVote(s, target, user, ty, seen, key)
    case SetVote(target, user, ty, seen, key) => DoSetVote(s, target, user, ty, seen, key)
    case Unvote(target, user) => (Recount(s.(votes := s.votes - {(target, user)}), target), true)
  }

  function VoteOf(s: State, target: int, user: int): Option<VoteType> {
    if (target, user) in s.votes then Some(s.votes[(target, user)]) else None
  }

  // ---------------------------------------------------------------- counting

  function Weight(v: Option<VoteType>, ty: VoteType): nat { if v == Some(ty) then 1 else 0 }

  lemma VotersContain(votes: map<(int, int), VoteType>, target: int, user: int, ty: VoteType)
    ensures user in Voters(votes, target, ty) <==> (target, user) in votes && votes[(target, user)] == ty
  {
    if user in Voters(votes, target, ty) {
      var k :| k in votes && k.0 == target && votes[k] == ty && k.1 == user;
      assert k == (target, user);
    }
  }

  predicate DifferOnlyAt(votes: map<(int, int), VoteType>, votes': map<(int, int), VoteType>, key: (int, int)) {
    forall k | k in votes.Keys + votes'.Keys && k != key :: k in votes && k in votes' && votes'[k] == votes[k]
  }

  lemma VotersMove(votes: map<(int, int), VoteType>, votes': map<(int, int), VoteType>, target: int, user: int,
                   ty: VoteType)
    requires DifferOnlyAt(votes, votes', (target, user))
    ensures |Voters(votes', target, ty)| + Weight(VoteOf(State(votes, map[]), target, user), ty)
         == |Voters(votes, target, ty)| + Weight(VoteOf(State(votes', map[]), target, user), ty)
  {
    var a, b := Voters(votes, target, ty), Voters(votes', target, ty);
    forall u ensures u in a - {user} <==> u in b - {user} {
      VotersContain(votes, target, u, ty);
      VotersContain(votes', target, u, ty);
    }
    assert a - {user} == b - {user};
    VotersContain(votes, target, user, ty);
    VotersContain(votes', target, user, ty);
    assert |a - {user}| == |a| - Weight(VoteOf(State(votes, map[]), target, user), ty);
    assert |b - {user}| == |b| - Weight(VoteOf(State(votes', map[]), target, user), ty);
  }

  lemma OthersKeepTally(votes: map<(int, int), VoteType>, votes': map<(int, int), VoteType>, key: (int, int),
                        other: int)
    requires DifferOnlyAt(votes, votes', key) && other != key.0
    ensures Tally(votes', other) == Tally(votes, other)
  {
    forall ty, u ensures u in Voters(votes', other, ty) <==> u in Voters(votes, other, ty) {
      VotersContain(votes, other, u, ty);
      VotersContain(votes', other, u, ty);
    }
    assert Voters(votes', other, UPVOTE) == Voters(votes, other, UPVOTE);
    assert Voters(votes', other, DOWNVOTE) == Voters(votes, other, DOWNVOTE);
  }

  // ---------------------------------------------------------------- counters agree with rows

  /** Stored counters equal the counts over the rows, and rows refer to targets that exist. */
  ghost predicate CountersAgree(s: State) {
    && (forall t | t in s.targets :: s.targets[t] == Tally(s.votes, t))
    && (forall k | k in s.votes :: k.0 in s.targets)
  }

  /** The vote a user is left with, by a step on that user and target. */
  function Left(s: State, op: Op): Option<VoteType>
    requires !op.AddTarget?
  {
    if op.Unvote? || (op.Vote? && op.seen == Some(op.voteType)) then None
    else if op.SetVote? && op.seen == Some(op.voteType) then VoteOf(s, op.target, op.user)
    else if op.target in s.targets && !Clashes(s, op.target, op.user, op.seen, op.key) then Some(op.voteType)
    else VoteOf(s, op.target, op.user)
  }

  /** The rows and the target that a step touches. */
  lemma StepOnRows(s: State, op: Op)
    requires CountersAgree(s) && !op.AddTarget?
    ensures var t := Step(s, op).0;
            && DifferOnlyAt(s.votes, t.votes, (op.target, op.user))
            && VoteOf(t, op.target, op.user) == Left(s, op)
            && t.targets.Keys == s.targets.Keys
            && (forall target | target in s.targets && target != op.target :: t.targets[target] == s.targets[target])
            && (op.target in s.targets ==> t.targets[op.target] == Tally(t.votes, op.target))
            && (forall k | k in t.votes :: k.0 in t.targets)
  {
    hide Tally;
  }

  /**
   Every step, however stale its read, keeps the counters exact: it replaces one user's vote on
   one target, and moves that target's counters by exactly that vote.
   */
  lemma StepMovesOneVote(s: State, op: Op)
    requires CountersAgree(s) && !op.AddTarget?
    ensures var t := Step(s, op).0;
            && CountersAgree(t) && t.targets.Keys == s.targets.Keys
            && VoteOf(t, op.target, op.user) == Left(s, op)
            && (forall target, user | (target, user) != (op.target, op.user) ::
                  VoteOf(t, target, user) == VoteOf(s, target, user))
            && (forall target | target in s.targets && target != op.target :: t.targets[target] == s.targets[target])
            && (op.target in s.targets ==>
                  var c, d := s.targets[op.target], t.targets[op.target];
                  var before := VoteOf(s, op.target, op.user);
                  && d.upvoteCount == c.upvoteCount + Weight(Left(s, op), UPVOTE) - Weight(before, UPVOTE)
                  && d.downvoteCount == c.downvoteCount + Weight(Left(s, op), DOWNVOTE) - Weight(before, DOWNVOTE)
                  && d.voteScore == d.upvoteCount - d.downvoteCount)
  {
    var t := Step(s, op).0;
    StepOnRows(s, op);
    hide *;
    StaysInAgreement(s, t, (op.target, op.user));
    TallyMoves(s, t, op.target, op.user);
    forall target, user | (target, user) != (op.target, op.user)
      ensures VoteOf(t, target, user) == VoteOf(s, target, user) {
      OthersKeepVote(s, t, (op.target, op.user), target, user);
    }
  }

  lemma OthersKeepVote(s: State, t: State, key: (int, int), target: int, user: int)
    requires DifferOnlyAt(s.votes, t.votes, key) && (target, user) != key
    ensures VoteOf(t, target, user) == VoteOf(s, target, user)
  {}

  lemma TallyMoves(s: State, t: State, target: int, user: int)
    requires CountersAgree(s) && CountersAgree(t) && DifferOnlyAt(s.votes, t.votes, (target, user))
    ensures target in s.targets && target in t.targets ==>
              var c, d := s.targets[target], t.targets[target];
              var before, after := VoteOf(s, target, user), VoteOf(t, target, user);
              && d.upvoteCount == c.upvoteCount + Weight(after, UPVOTE) - Weight(before, UPVOTE)
              && d.downvoteCount == c.downvoteCount + Weight(after, DOWNVOTE) - Weight(before, DOWNVOTE)
              && d.voteScore == d.upvoteCount - d.downvoteCount
  {
    VotersMove(s.votes, t.votes, target, user, UPVOTE);
    VotersMove(s.votes, t.votes, target, user, DOWNVOTE);
    hide Voters, DifferOnlyAt;
  }

  lemma StaysInAgreement(s: State, t: State, key: (int, int))
    requires CountersAgree(s) && DifferOnlyAt(s.votes, t.votes, key) && t.targets.Keys == s.targets.Keys
    requires forall target | target in s.targets && target != key.0 :: t.targets[target] == s.targets[target]
    requires key.0 in s.targets ==> t.targets[key.0] == Tally(t.votes, key.0)
    requires forall k | k in t.votes :: k.0 in t.targets
    ensures CountersAgree(t)
  {
    hide Tally, DifferOnlyAt;
    forall other | other != key.0 ensures Tally(t.votes, other) == Tally(s.votes, other) {
      OthersKeepTally(s.votes, t.votes, key, other);
    }
    forall x | x in t.targets ensures t.targets[x] == Tally(t.votes, x) {
      assert x in s.targets.Keys;
    }
  }

  /**
   When a call throws, and what it leaves then: only a save for a target that is missing, or one that would
   make a second row for the pair in a table with an id of its own, whose row was read as absent or has
   been replaced since.
   */
  lemma ThrowsIff(s: State, op: Op)
    requires CountersAgree(s) && !op.AddTarget?
    ensures var (t, ok) := Step(s, op);
            && (!ok <==>
                  && (op.Vote? || op.SetVote?)
                  && (op.SetVote? ==> op.target !in s.targets || op.seen != Some(op.voteType))
                  && (op.Vote? ==> op.seen != Some(op.voteType))
                  && (op.target !in s.targets
                      || (op.key.Surrogate? && VoteOf(s, op.target, op.user).Some?
                          && (op.seen.None? || !op.key.sameRow))))
            && (!ok ==> t == s)
  {}

  /** A target starts without votes, once. */
  lemma AddTargetOnce(s: State, target: int)
    requires CountersAgree(s)
    ensures var (t, ok) := Step(s, AddTarget(target));
            && (ok <==> target !in s.targets) && t.votes == s.votes
            && t.targets == (if ok then s.targets[target := Counts(0, 0, 0)] else s.targets)
  {}

  function After(ops: seq<Op>, k: nat): State
    requires k <= |ops|
  {
    if k == 0 then State(map[], map[]) else Step(After(ops, k - 1), ops[k - 1]).0
  }

  /** Main result: over any run, stale reads included, the counters equal the counts over the rows. */
  lemma {:induction false} CountersAlwaysAgree(ops: seq<Op>, k: nat)
    requires k <= |ops|
    ensures CountersAgree(After(ops, k))
  {
    if k > 0 {
      CountersAlwaysAgree(ops, k - 1);
      var s, op := After(ops, k - 1), ops[k - 1];
      if op.AddTarget? {
        if op.target !in s.targets {
          assert Voters(s.votes, op.target, UPVOTE) == {};
          assert Voters(s.votes, op.target, DOWNVOTE) == {};
        }
      } else {
        StepMovesOneVote(s, op);
      }
    }
  }

  /** Step i is a vote, a set vote or an unvote of the user on the target. */
  predicate VotesAt(ops: seq<Op>, i: nat, target: int, user: int) {
    i < |ops| && !ops[i].AddTarget? && ops[i].target == target && ops[i].user == user
  }

  lemma StepOnVote(s: State, op: Op, target: int, user: int)
    requires CountersAgree(s)
    ensures VoteOf(Step(s, op).0, target, user)
         == if !op.AddTarget? && op.target == target && op.user == user then Left(s, op) else VoteOf(s, target, user)
  {
    if op.AddTarget? {
      AddTargetOnce(s, op.target);
    } else {
      StepMovesOneVote(s, op);
    }
    hide Step, Left, CountersAgree;
  }

  /** A user's vote is what the last of these steps left. */
  lemma {:induction false} VoteTellsHistory(ops: seq<Op>, i: nat, k: nat, target: int, user: int)
    requires i < k <= |ops| && VotesAt(ops, i, target, user)
    requires forall j: nat | i < j < k :: !VotesAt(ops, j, target, user)
    ensures VoteOf(After(ops, k), target, user) == Left(After(ops, i), ops[i])
  {
    CountersAlwaysAgree(ops, k - 1);
    StepOnVote(After(ops, k - 1), ops[k - 1], target, user);
    hide Step, Left, CountersAgree;
    if i < k - 1 {
      VoteTellsHistory(ops, i, k - 1, target, user);
      assert !VotesAt(ops, k - 1, target, user);
    }
  }

  /** Before the first one there is no vote. */
  lemma {:induction false} NoVoteAtFirst(ops: seq<Op>, k: nat, target: int, user: int)
    requires k <= |ops| && forall j: nat | j < k :: !VotesAt(ops, j, target, user)
    ensures VoteOf(After(ops, k), target, user) == None
  {
    if k > 0 {
      CountersAlwaysAgree(ops, k - 1);
      StepOnVote(After(ops, k - 1), ops[k - 1], target, user);
      hide Step, Left, CountersAgree;
      NoVoteAtFirst(ops, k - 1, target, user);
      assert !VotesAt(ops, k - 1, target, user);
    }
  }

  /** One row for a target and user: the user counts at most once, as an upvoter or as a downvoter. */
  lemma OneVotePerUser(ops: seq<Op>, k: nat, target: int)
    requires k <= |ops| && target in After(ops, k).targets
    ensures var s := After(ops, k);
            var up, down := Voters(s.votes, target, UPVOTE), Voters(s.votes, target, DOWNVOTE);
            up !! down && s.targets[target].upvoteCount + s.targets[target].downvoteCount == |up + down|
  {
    CountersAlwaysAgree(ops, k);
  }

  // ---------------------------------------------------------------- what a vote means

  /** Voting the same way again takes the vote back; voting the other way switches it. */
  function Toggled(v: Option<VoteType>, ty: VoteType): Option<VoteType> {
    if v == Some(ty) then None else Some(ty)
  }

  /**
   A vote whose read is fresh toggles.  A stale one still does exactly when it is right about the
   one thing the code asks, whether the stored vote has the requested type, and what it then saves
   is not a second row for the pair.
   */
  lemma VoteTogglesIff(s: State, target: int, user: int, ty: VoteType, seen: Option<VoteType>, key: Key)
    requires CountersAgree(s) && target in s.targets
    ensures VoteOf(Step(s, Vote(target, user, ty, seen, key)).0, target, user) == Toggled(VoteOf(s, target, user), ty)
      <==> (seen == Some(ty) <==> VoteOf(s, target, user) == Some(ty))
           && (seen == Some(ty) || key.Pair? || VoteOf(s, target, user).None? || (seen.Some? && key.sameRow))
  {
    StepMovesOneVote(s, Vote(target, user, ty, seen, key));
  }

  /**
   On a problem's comment the user is left with the requested vote exactly when it was stored already,
   or the read did not show it and the save makes no second row for the pair.
   */
  lemma VoteIsSetIff(s: State, target: int, user: int, ty: VoteType, seen: Option<VoteType>, key: Key)
    requires CountersAgree(s) && target in s.targets
    ensures VoteOf(Step(s, SetVote(target, user, ty, seen, key)).0, target, user) == Some(ty)
      <==> VoteOf(s, target, user) == Some(ty)
           || (seen != Some(ty) && (key.Pair? || VoteOf(s, target, user).None? || (seen.Some? && key.sameRow)))
  {
    StepMovesOneVote(s, SetVote(target, user, ty, seen, key));
  }

  function FreshVote(s: State, target: int, user: int, ty: VoteType, surrogate: bool): State {
    Step(s, Vote(target, user, ty, VoteOf(s, target, user), if surrogate then Surrogate(true) else Pair)).0
  }

  /** Two equal fresh votes in a row take back whatever vote there was, with its count. */
  lemma VoteTwice(s: State, target: int, user: int, ty: VoteType, surrogate: bool)
    requires CountersAgree(s) && target in s.targets
    ensures var t := FreshVote(FreshVote(s, target, user, ty, surrogate), target, user, ty, surrogate);
            if VoteOf(s, target, user) == Some(ty) then t == s
            else t == Step(s, Unvote(target, user)).0
  {
    hide Tally;
    var key := if surrogate then Surrogate(true) else Pair;
    var m := FreshVote(s, target, user, ty, surrogate);
    StepMovesOneVote(s, Vote(target, user, ty, VoteOf(s, target, user), key));
    StepMovesOneVote(m, Vote(target, user, ty, VoteOf(m, target, user), key));
    StepMovesOneVote(s, Unvote(target, user));
    var t := FreshVote(m, target, user, ty, surrogate);
    var want := if VoteOf(s, target, user) == Some(ty) then s else Step(s, Unvote(target, user)).0;
    SameRowsSameState(t, want);
  }

  lemma SameRowsSameState(s: State, t: State)
    requires CountersAgree(s) && CountersAgree(t) && s.targets.Keys == t.targets.Keys
    requires forall target, user :: VoteOf(s, target, user) == VoteOf(t, target, user)
    ensures s == t
  {
    forall k ensures (k in s.votes <==> k in t.votes) && (k in s.votes ==> s.votes[k] == t.votes[k]) {
      assert VoteOf(s, k.0, k.1) == VoteOf(t, k.0, k.1);
      assert k == (k.0, k.1);
    }
    assert s.votes == t.votes;
    forall x | x in s.targets ensures x in t.targets && s.targets[x] == t.targets[x] {
      assert x in t.targets.Keys;
    }
    assert s.targets == t.targets;
  }

  // ---------------------------------------------------------------- the service

  class VotesService {
    var votes: map<(int, int), VoteType>
    var targets: map<int, Counts>

    constructor ()
      ensures Rows() == State(map[], map[])
    {
      votes, targets := map[], map[];
    }

    ghost function Rows(): State
      reads this
    {
      State(votes, targets)
    }

    method UpdateVoteCounts(target: int)
      modifies this`targets
      ensures Rows() == Recount(old(Rows()), target)
    {
      var upvotes := |set k | k in votes && k.0 == target && votes[k] == UPVOTE :: k.1|;
      var downvotes := |set k | k in votes && k.0 == target && votes[k] == DOWNVOTE :: k.1|;
      if target in targets {
        targets := targets[target := Counts(upvotes, downvotes, upvotes - downvotes)];
      }
    }

    /** manager.save of the row that was read, if hadRow, or of a new one: an upsert by the table's key. */
    method SaveVote(target: int, user: int, voteType: VoteType, hadRow: bool, key: Key) returns (ok: bool)
      modifies this`votes
      ensures ok <==> key.Pair? || (target, user) !in old(votes) || (hadRow && key.sameRow)
      ensures votes == if ok then old(votes)[(target, user) := voteType] else old(votes)
    {
      if key.Surrogate? && (target, user) in votes && !(hadRow && key.sameRow) {
        return false;
      }
      votes := votes[(target, user) := voteType];
      ok := true;
    }

    /** vote and voteComment; existing was read before the transaction. */
    method CastVote(target: int, user: int, voteType: VoteType, existing: Option<VoteType>, key: Key)
      returns (ok: bool)
      modifies this
      ensures (Rows(), ok) == Step(old(Rows()), Vote(target, user, voteType, existing, key))
    {
      if existing.Some? {
        if existing.value == voteType {
          votes := votes - {(target, user)};
          UpdateVoteCounts(target);
          return true;
        }
      }
      if target !in targets {
        return false;
      }
      ok := SaveVote(target, user, voteType, existing.Some?, key);
      if ok {
        UpdateVoteCounts(target);
      }
    }

    /** voteProblemComment. */
    method SetCommentVote(target: int, user: int, voteType: VoteType, existing: Option<VoteType>, key: Key)
      returns (ok: bool)
      modifies this
      ensures (Rows(), ok) == Step(old(Rows()), SetVote(target, user, voteType, existing, key))
    {
      if target !in targets {
        return false;
      }
      if existing == Some(voteType) {
        return true;
      }
      ok := SaveVote(target, user, voteType, existing.Some?, key);
      if ok {
        UpdateVoteCounts(target);
      }
    }

    /** unvote and unvoteComment. */
    method RemoveVote(target: int, user: int)
      modifies this
      ensures (Rows(), true) == Step(old(Rows()), Unvote(target, user))
    {
      votes := votes - {(target, user)};
      UpdateVoteCounts(target);
    }
  }
}
