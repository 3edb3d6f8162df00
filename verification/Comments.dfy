/**
 BaseCommentsService with its subclasses for solutions and problems: comments that reply to
 comments, soft deletion, and the counts stored with their parents and their solutions.

 createComment and deleteComment are one step each.  Ids come from a sequence, which a refused
 insert advances too.  Foreign keys are checked when the insert is done, so that a row can refer
 to itself.
 */
module Comments {
  import opened Wrappers

  /** Whose comments the table holds: that decides which overrides run. */
  datatype Kind = Solutions | Problems

  datatype Comment = Comment(authorId: nat, containerId: nat, parentId: Option<nat>, replyCount: int, isDeleted: bool)

  /** containers: the solutions or problems that exist, with their commentCount, which only solutions have. */
  datatype State = State(kind: Kind, containers: map<nat, int>, comments: map<nat, Comment>, nextId: nat)

  datatype Op =
    | Publish(containerId: nat)
    | Create(userId: nat, containerId: nat, parentId: Option<nat>)
    | Delete(id: nat, userId: nat, isAdmin: bool)

  datatype Outcome =
    | Created(id: nat, containerId: nat, parent: Option<nat>)
    | Deleted(id: nat, containerId: nat, parent: Option<nat>)
    | Quiet | Rejected | NotFound | Forbidden

  function Empty(kind: Kind): State { State(kind, map[], map[], 1) }

  /** The update query on the parent's reply_count; it matches no row when the parent is absent. */
  function AddReplies(comments: map<nat, Comment>, parent: Option<nat>, n: int): map<nat, Comment> {
    if parent.Some? && parent.value in comments
    then comments[parent.value := comments[parent.value].(replyCount := comments[parent.value].replyCount + n)]
    else comments
  }

  /** The same on comment_count, for solutions. */
  function AddComments(s: State, containerId: nat, n: int): map<nat, int> {
    if s.kind.Solutions? && containerId in s.containers
    then s.containers[containerId := s.containers[containerId] + n] else s.containers
  }

  function DoCreate(s: State, userId: nat, containerId: nat, parentId: Option<nat>): (State, Outcome) {
    var parent := if parentId == Some(0) then None else parentId;
    if s.kind.Problems? && parent.Some? && parent.value !in s.comments then (s, NotFound)
    else if containerId !in s.containers
            || (parent.Some? && parent.value !in s.comments && parent.value != s.nextId)
    then (s.(nextId := s.nextId + 1), Rejected)
    else
      var comments := s.comments[s.nextId := Comment(userId, containerId, parent, 0, false)];
      (State(s.kind, AddComments(s, containerId, 1), AddReplies(comments, parent, 1), s.nextId + 1),
       Created(s.nextId, containerId, parent))
  }

  function DoDelete(s: State, id: nat, userId: nat, isAdmin: bool): (State, Outcome) {
    if id !in s.comments then (s, if s.kind.Solutions? then Quiet else NotFound) else
    var comment := s.comments[id];
    if !isAdmin && comment.authorId != userId then (s, Forbidden) else
    var comments := s.comments[id := comment.(isDeleted := true)];
    (s.(containers := AddComments(s, comment.containerId, -1),
        comments := if s.kind.Solutions? then AddReplies(comments, comment.parentId, -1) else comments),
     Deleted(id, comment.containerId, comment.parentId))
  }

  function Step(s: State, op: Op): (State, Outcome) {
    match op
    case Publish(containerId) =>
      (if containerId in s.containers then s else s.(containers := s.containers[containerId := 0]), Quiet)
    case Create(userId, containerId, parentId) => DoCreate(s, userId, containerId, parentId)
    case Delete(id, userId, isAdmin) => DoDelete(s, id, userId, isAdmin)
  }

  function After(kind: Kind, ops: seq<Op>, k: nat): State
    requires k <= |ops|
  {
    if k == 0 then Empty(kind) else Step(After(kind, ops, k - 1), ops[k - 1]).0
  }

  function OutcomeAt(kind: Kind, ops: seq<Op>, k: nat): Outcome
    requires k < |ops|
  {
    Step(After(kind, ops, k), ops[k]).1
  }

  // ---------------------------------------------------------------- who may do what

  /**
   A comment is created exactly when its container is there and its parent, if one is given, is too, or has
   the very id that the comment gets on a solution.  It starts with no replies, and not deleted.
   */
  lemma CreateSucceedsIff(s: State, userId: nat, containerId: nat, parentId: Option<nat>)
    requires Rooted(s)
    ensures var (t, out) := DoCreate(s, userId, containerId, parentId);
            var given := parentId.Some? && parentId.value != 0;
            && (out.Created? <==> (
                  && containerId in s.containers
                  && (!given || parentId.value in s.comments || (s.kind.Solutions? && parentId.value == s.nextId))))
            && (out == NotFound <==> s.kind.Problems? && given && parentId.value !in s.comments)
            && (!out.Created? && out != NotFound ==> out == Rejected)
            && (out.Created? ==> out == Created(s.nextId, containerId, if given then parentId else None))
            && (out.Created? ==> s.nextId in t.comments && var row := t.comments[s.nextId];
                  row.authorId == userId && row.containerId == containerId && !row.isDeleted
                  && row.parentId == (if given then parentId else None)
                  && row.replyCount == (if row.parentId == Some(s.nextId) then 1 else 0))
            && t.nextId == (if out == NotFound then s.nextId else s.nextId + 1)
            && (!out.Created? ==> t.comments == s.comments && t.containers == s.containers)
            && (s.kind.Problems? ==> t.containers == s.containers)
  {}

  /** Author and admin may delete a comment, and nobody else; a deletion touches no other mark, and no author. */
  lemma DeleteSucceedsIff(s: State, id: nat, userId: nat, isAdmin: bool)
    requires Rooted(s)
    ensures var (t, out) := DoDelete(s, id, userId, isAdmin);
            && (out.Deleted? <==> id in s.comments && (isAdmin || s.comments[id].authorId == userId))
            && (out == Forbidden <==> id in s.comments && !isAdmin && s.comments[id].authorId != userId)
            && (id !in s.comments ==> out == match s.kind case Solutions => Quiet case Problems => NotFound)
            && (!out.Deleted? ==> t == s) && (s.kind.Problems? ==> t.containers == s.containers)
            && t.comments.Keys == s.comments.Keys
            && (forall o | o in s.comments ::
                  t.comments[o].authorId == s.comments[o].authorId
                  && (t.comments[o].isDeleted <==> s.comments[o].isDeleted || (out.Deleted? && o == id)))
  {}

  // ---------------------------------------------------------------- when the replies form a forest

  /** Every parent exists and has no greater id; a comment may be its own parent. */
  ghost predicate Rooted(s: State) {
    && 0 < s.nextId
    && forall id | id in s.comments ::
      && 0 < id < s.nextId && s.comments[id].containerId in s.containers
      && (s.comments[id].parentId.Some? ==>
            s.comments[id].parentId.value in s.comments && s.comments[id].parentId.value <= id)
  }

  /** No comment is its own parent. */
  predicate Forest(s: State) {
    forall id | id in s.comments :: s.comments[id].parentId != Some(id)
  }

  /** A reply to the id that the sequence is about to give; for a problem the parent is looked up first. */
  predicate NamesItself(s: State, op: Op) {
    s.kind.Solutions? && op.Create? && op.containerId in s.containers && op.parentId == Some(s.nextId)
  }

  lemma StepKeepsRooted(s: State, op: Op)
    requires Rooted(s)
    ensures Rooted(Step(s, op).0) && Step(s, op).0.kind == s.kind
  {}

  lemma {:induction false} AlwaysRooted(kind: Kind, ops: seq<Op>, k: nat)
    requires k <= |ops|
    ensures Rooted(After(kind, ops, k)) && After(kind, ops, k).kind == kind
  {
    hide Step;
    if k > 0 {
      AlwaysRooted(kind, ops, k - 1);
      StepKeepsRooted(After(kind, ops, k - 1), ops[k - 1]);
    }
  }

  lemma StepOnForest(s: State, op: Op)
    requires Rooted(s)
    ensures Forest(Step(s, op).0) <==> Forest(s) && !NamesItself(s, op)
  {
    var (t, out) := Step(s, op);
    forall id | id in s.comments ensures id in t.comments && t.comments[id].parentId == s.comments[id].parentId {
    }
    if NamesItself(s, op) {
      assert t.comments[s.nextId].parentId == Some(s.nextId);
    }
    if Forest(t) {
      forall id | id in s.comments ensures s.comments[id].parentId != Some(id) {
        assert t.comments[id].parentId != Some(id);
      }
    }
  }

  /**
   Main result: after every run the replies form a forest exactly when no comment on a solution was
   sent as a reply to the very id it was about to get.
   */
  lemma {:induction false} ForestIff(kind: Kind, ops: seq<Op>, k: nat)
    requires k <= |ops|
    ensures Forest(After(kind, ops, k)) <==> forall i: nat | i < k :: !NamesItself(After(kind, ops, i), ops[i])
  {
    hide Step, NamesItself;
    if k > 0 {
      ForestIff(kind, ops, k - 1);
      AlwaysRooted(kind, ops, k - 1);
      StepOnForest(After(kind, ops, k - 1), ops[k - 1]);
    }
  }

  /** The first comment on a solution, sent as a reply to comment 1, becomes its own parent. */
  lemma OwnParent()
    ensures var s := After(Solutions, [Publish(5), Create(7, 5, Some(1))], 2);
            s.comments == map[1 := Comment(7, 5, Some(1), 1, false)] && !Forest(s)
  {
    var ops := [Publish(5), Create(7, 5, Some(1))];
    assert After(Solutions, ops, 1) == State(Solutions, map[5 := 0], map[], 1) by {
      assert After(Solutions, ops, 0) == Empty(Solutions);
    }
    assert After(Solutions, ops, 2) == DoCreate(After(Solutions, ops, 1), 7, 5, Some(1)).0;
    assert 1 in After(Solutions, ops, 2).comments;
  }

  /** Walking up from a comment ends, at a root or at a comment that is its own parent: ids decrease on the way. */
  function Ancestry(s: State, id: nat): (path: seq<nat>)
    requires Rooted(s) && id in s.comments
    ensures path != [] && path[0] == id && forall i | 0 <= i < |path| :: path[i] in s.comments
    ensures forall i | 0 <= i < |path| - 1 :: s.comments[path[i]].parentId == Some(path[i + 1])
    ensures var last := path[|path| - 1];
            s.comments[last].parentId == None || s.comments[last].parentId == Some(last)
    ensures Forest(s) ==> s.comments[path[|path| - 1]].parentId == None
    ensures forall i, j | 0 <= i < j < |path| :: path[i] > path[j]
    decreases id
  {
    match s.comments[id].parentId
    case None => [id]
    case Some(parent) => if parent == id then [id] else [id] + Ancestry(s, parent)
  }

  // ---------------------------------------------------------------- counting over the run

  /** What a stored count is about: the replies to a comment, or the comments on a solution. */
  datatype Group = RepliesTo(id: nat) | CommentsOn(containerId: nat)

  predicate Belongs(containerId: nat, parent: Option<nat>, g: Group) {
    match g
    case RepliesTo(c) => parent == Some(c)
    case CommentsOn(x) => containerId == x
  }

  /** Problems have no comment count. */
  predicate HasCount(kind: Kind, g: Group) { g.CommentsOn? ==> kind.Solutions? }

  function StoredCount(s: State, g: Group): int {
    match g
    case RepliesTo(c) => if c in s.comments then s.comments[c].replyCount else 0
    case CommentsOn(x) => if x in s.containers then s.containers[x] else 0
  }

  function Live(s: State, g: Group): set<nat> {
    set id | id in s.comments && Belongs(s.comments[id].containerId, s.comments[id].parentId, g)
             && !s.comments[id].isDeleted
  }

  predicate CreatedIn(out: Outcome, g: Group) { out.Created? && Belongs(out.containerId, out.parent, g) }

  predicate DeletedIn(out: Outcome, g: Group) { out.Deleted? && Belongs(out.containerId, out.parent, g) }

  /** The step deletes a comment of the group that is not deleted yet. */
  predicate DeletesFirst(s: State, op: Op, g: Group) {
    DeletedIn(Step(s, op).1, g) && op.Delete? && op.id in s.comments && !s.comments[op.id].isDeleted
  }

  function CreatedUpTo(kind: Kind, ops: seq<Op>, k: nat, g: Group): nat
    requires k <= |ops|
  {
    if k == 0 then 0 else
    CreatedUpTo(kind, ops, k - 1, g) + (if CreatedIn(OutcomeAt(kind, ops, k - 1), g) then 1 else 0)
  }

  function DeletesUpTo(kind: Kind, ops: seq<Op>, k: nat, g: Group): nat
    requires k <= |ops|
  {
    if k == 0 then 0 else
    DeletesUpTo(kind, ops, k - 1, g) + (if DeletedIn(OutcomeAt(kind, ops, k - 1), g) then 1 else 0)
  }

  function FirstDeletesUpTo(kind: Kind, ops: seq<Op>, k: nat, g: Group): nat
    requires k <= |ops|
  {
    if k == 0 then 0 else
    FirstDeletesUpTo(kind, ops, k - 1, g)
    + (if DeletesFirst(After(kind, ops, k - 1), ops[k - 1], g) then 1 else 0)
  }

  lemma StepOnComment(s: State, op: Op, id: nat)
    requires Rooted(s)
    ensures var (t, out) := Step(s, op);
            && (id in s.comments ==> (
                  && id in t.comments && t.comments[id].parentId == s.comments[id].parentId
                  && t.comments[id].containerId == s.comments[id].containerId
                  && (t.comments[id].isDeleted <==> s.comments[id].isDeleted || (out.Deleted? && out.id == id))))
            && (id !in s.comments && id in t.comments ==>
                  !t.comments[id].isDeleted && out == Created(id, t.comments[id].containerId, t.comments[id].parentId))
            && (out.Created? ==> out.id !in s.comments && out.id in t.comments)
            && (out.Deleted? ==> op.Delete? && op.id == out.id && out.id in s.comments
                                 && out.parent == s.comments[out.id].parentId
                                 && out.containerId == s.comments[out.id].containerId)
  {}

  /** What one step does to a stored count: a deletion counts for solutions only. */
  lemma StepOnCount(s: State, op: Op, g: Group)
    requires Rooted(s) && HasCount(s.kind, g)
    ensures var (t, out) := Step(s, op);
            StoredCount(t, g) == StoredCount(s, g)
              + (if CreatedIn(out, g) then 1 else 0)
              - (if s.kind.Solutions? && DeletedIn(out, g) then 1 else 0)
  {}

  lemma LiveAfterStep(s: State, op: Op, g: Group, id: nat)
    requires Rooted(s)
    ensures var (t, out) := Step(s, op);
            id in Live(t, g) <==> (id in Live(s, g) && !(out.Deleted? && out.id == id))
                                  || (CreatedIn(out, g) && out.id == id)
  {
    StepOnComment(s, op, id);
    hide Step, Rooted;
  }

  /** What one step does to the live members of a group. */
  lemma StepOnLive(s: State, op: Op, g: Group)
    requires Rooted(s)
    ensures |Live(Step(s, op).0, g)| == |Live(s, g)|
              + (if CreatedIn(Step(s, op).1, g) then 1 else 0) - (if DeletesFirst(s, op, g) then 1 else 0)
  {
    var (t, out) := Step(s, op);
    var a, b := Live(s, g), Live(t, g);
    StepOnComment(s, op, if out.Created? || out.Deleted? then out.id else 0);
    hide Step, Rooted;
    forall id: nat
      ensures id in b <==> (id in a && !(out.Deleted? && out.id == id)) || (CreatedIn(out, g) && out.id == id)
    {
      LiveAfterStep(s, op, g, id);
    }
    if CreatedIn(out, g) {
      assert b == a + {out.id} && out.id !in a;
    } else if out.Deleted? && out.id in a {
      assert b == a - {out.id};
    } else {
      assert b == a;
    }
  }

  /**
   Main result: a stored count is the comments created minus, for solutions, the successful delete
   calls on them; the live comments are those created minus those deleted for the first time.
   */
  lemma {:induction false} CountDrift(kind: Kind, ops: seq<Op>, k: nat, g: Group)
    requires k <= |ops| && HasCount(kind, g)
    ensures StoredCount(After(kind, ops, k), g)
         == CreatedUpTo(kind, ops, k, g) - (if kind.Solutions? then DeletesUpTo(kind, ops, k, g) else 0)
    ensures |Live(After(kind, ops, k), g)| == CreatedUpTo(kind, ops, k, g) - FirstDeletesUpTo(kind, ops, k, g)
  {
    hide Step, DeletesFirst, CreatedIn, DeletedIn;
    if k == 0 {
      assert Live(Empty(kind), g) == {};
    } else {
      CountDrift(kind, ops, k - 1, g);
      AlwaysRooted(kind, ops, k - 1);
      StepOnCount(After(kind, ops, k - 1), ops[k - 1], g);
      StepOnLive(After(kind, ops, k - 1), ops[k - 1], g);
    }
  }

  // ---------------------------------------------------------------- when the count is right

  predicate DeletedAt(kind: Kind, ops: seq<Op>, i: nat, id: nat) {
    i < |ops| && OutcomeAt(kind, ops, i).Deleted? && OutcomeAt(kind, ops, i).id == id
  }

  /** A comment is marked deleted exactly when some earlier delete call on it succeeded. */
  lemma {:induction false} DeletedIffCalled(kind: Kind, ops: seq<Op>, k: nat, id: nat)
    requires k <= |ops|
    ensures id in After(kind, ops, k).comments && After(kind, ops, k).comments[id].isDeleted
      <==> exists i: nat :: i < k && DeletedAt(kind, ops, i, id)
  {
    hide Step;
    if k > 0 {
      DeletedIffCalled(kind, ops, k - 1, id);
      AlwaysRooted(kind, ops, k - 1);
      StepOnComment(After(kind, ops, k - 1), ops[k - 1], id);
      var out := OutcomeAt(kind, ops, k - 1);
      assert DeletedAt(kind, ops, k - 1, id) <==> (out.Deleted? && out.id == id);
    }
  }

  /** A comment keeps its place, so that all deletions of it are in the same groups. */
  lemma {:induction false} SameGroups(kind: Kind, ops: seq<Op>, i: nat, k: nat, id: nat)
    requires i <= k <= |ops| && id in After(kind, ops, i).comments
    ensures var s, t := After(kind, ops, i), After(kind, ops, k);
            id in t.comments && t.comments[id].parentId == s.comments[id].parentId
            && t.comments[id].containerId == s.comments[id].containerId
  {
    hide Step;
    if i < k {
      SameGroups(kind, ops, i, k - 1, id);
      AlwaysRooted(kind, ops, k - 1);
      StepOnComment(After(kind, ops, k - 1), ops[k - 1], id);
    }
  }

  lemma DeletionsShareGroup(kind: Kind, ops: seq<Op>, i: nat, j: nat, id: nat, g: Group)
    requires i <= j < |ops| && DeletedAt(kind, ops, i, id) && DeletedAt(kind, ops, j, id)
    ensures DeletedIn(OutcomeAt(kind, ops, i), g) <==> DeletedIn(OutcomeAt(kind, ops, j), g)
  {
    hide Step;
    AlwaysRooted(kind, ops, i);
    AlwaysRooted(kind, ops, j);
    StepOnComment(After(kind, ops, i), ops[i], id);
    StepOnComment(After(kind, ops, j), ops[j], id);
    SameGroups(kind, ops, i, j, id);
  }

  /** A deletion at step j is the first one of its comment exactly when the comment was not deleted before. */
  lemma FirstIff(kind: Kind, ops: seq<Op>, j: nat, g: Group)
    requires j < |ops| && DeletedIn(OutcomeAt(kind, ops, j), g)
    ensures DeletesFirst(After(kind, ops, j), ops[j], g)
      <==> forall i: nat | i < j :: !DeletedAt(kind, ops, i, OutcomeAt(kind, ops, j).id)
  {
    hide Step;
    AlwaysRooted(kind, ops, j);
    StepOnComment(After(kind, ops, j), ops[j], OutcomeAt(kind, ops, j).id);
    DeletedIffCalled(kind, ops, j, OutcomeAt(kind, ops, j).id);
  }

  /** No comment of the group was deleted at all. */
  predicate NoneDeleted(kind: Kind, ops: seq<Op>, k: nat, g: Group)
    requires k <= |ops|
  {
    forall j: nat | j < k :: !DeletedIn(OutcomeAt(kind, ops, j), g)
  }

  /** No comment of the group was deleted twice. */
  ghost predicate NoneDeletedTwice(kind: Kind, ops: seq<Op>, k: nat, g: Group)
    requires k <= |ops|
  {
    forall i: nat, j: nat, id: nat | i < j < k && DeletedAt(kind, ops, i, id) && DeletedAt(kind, ops, j, id) ::
      !DeletedIn(OutcomeAt(kind, ops, j), g)
  }

  lemma {:induction false} FirstsAreAll(kind: Kind, ops: seq<Op>, k: nat, g: Group)
    requires k <= |ops|
    ensures FirstDeletesUpTo(kind, ops, k, g) <= DeletesUpTo(kind, ops, k, g)
    ensures FirstDeletesUpTo(kind, ops, k, g) == DeletesUpTo(kind, ops, k, g)
      <==> NoneDeletedTwice(kind, ops, k, g)
  {
    hide Step, DeletesFirst;
    if k > 0 {
      FirstsAreAll(kind, ops, k - 1, g);
      var out := OutcomeAt(kind, ops, k - 1);
      DeletesFirstDeletes(After(kind, ops, k - 1), ops[k - 1], g);
      if DeletedIn(out, g) {
        FirstIff(kind, ops, k - 1, g);
        assert DeletedAt(kind, ops, k - 1, out.id);
      }
    }
  }

  lemma DeletesFirstDeletes(s: State, op: Op, g: Group)
    ensures DeletesFirst(s, op, g) ==> DeletedIn(Step(s, op).1, g)
  {}

  lemma {:induction false} NoFirstNoDelete(kind: Kind, ops: seq<Op>, k: nat, g: Group)
    requires k <= |ops|
    ensures FirstDeletesUpTo(kind, ops, k, g) == 0 <==> NoneDeleted(kind, ops, k, g)
  {
    hide Step, DeletesFirst;
    if k > 0 {
      NoFirstNoDelete(kind, ops, k - 1, g);
      var out := OutcomeAt(kind, ops, k - 1);
      DeletesFirstDeletes(After(kind, ops, k - 1), ops[k - 1], g);
      if DeletedIn(out, g) && !DeletesFirst(After(kind, ops, k - 1), ops[k - 1], g) {
        FirstIff(kind, ops, k - 1, g);
        var i: nat :| i < k - 1 && DeletedAt(kind, ops, i, out.id);
        DeletionsShareGroup(kind, ops, i, k - 1, out.id, g);
      }
    }
  }

  /**
   Main result: for solutions a stored count is right exactly when no comment of its group was deleted
   twice; for problems, where nothing is ever taken off, exactly when none was deleted at all.
   */
  lemma CountExactIff(kind: Kind, ops: seq<Op>, k: nat, g: Group)
    requires k <= |ops| && HasCount(kind, g)
    ensures StoredCount(After(kind, ops, k), g) == |Live(After(kind, ops, k), g)|
      <==> if kind.Solutions? then NoneDeletedTwice(kind, ops, k, g) else NoneDeleted(kind, ops, k, g)
  {
    hide *;
    CountDrift(kind, ops, k, g);
    FirstsAreAll(kind, ops, k, g);
    NoFirstNoDelete(kind, ops, k, g);
  }

  /** A comment, its reply, and two delete calls on the reply. */
  const TWICE := [Publish(5), Create(7, 5, None), Create(7, 5, Some(1)), Delete(2, 7, false), Delete(2, 7, false)]

  lemma ReplyIsThere()
    ensures After(Solutions, TWICE, 3)
         == State(Solutions, map[5 := 2],
                  map[1 := Comment(7, 5, None, 1, false), 2 := Comment(7, 5, Some(1), 0, false)], 3)
  {
    assert After(Solutions, TWICE, 1) == State(Solutions, map[5 := 0], map[], 1) by {
      assert After(Solutions, TWICE, 0) == Empty(Solutions);
    }
    assert After(Solutions, TWICE, 2) == DoCreate(After(Solutions, TWICE, 1), 7, 5, None).0;
    assert After(Solutions, TWICE, 2) == State(Solutions, map[5 := 1], map[1 := Comment(7, 5, None, 0, false)], 2);
    assert After(Solutions, TWICE, 3) == DoCreate(After(Solutions, TWICE, 2), 7, 5, Some(1)).0;
  }

  /** Two delete calls on one reply, and the stored count of its parent is negative. */
  lemma ReplyCountCanGoNegative()
    ensures var s := After(Solutions, TWICE, 5);
            StoredCount(s, RepliesTo(1)) == -1 && Live(s, RepliesTo(1)) == {}
  {
    ReplyIsThere();
    var s3 := After(Solutions, TWICE, 3);
    var s4 := DoDelete(s3, 2, 7, false).0;
    assert After(Solutions, TWICE, 4) == s4;
    assert After(Solutions, TWICE, 5) == DoDelete(s4, 2, 7, false).0;
  }

  // ---------------------------------------------------------------- the service

  class CommentsService {
    const kind: Kind
    var containers: map<nat, int>
    var comments: map<nat, Comment>
    var nextId: nat

    constructor (kind: Kind)
      ensures Rows() == Empty(kind)
    {
      this.kind := kind;
      containers, comments, nextId := map[], map[], 1;
    }

    ghost function Rows(): State
      reads this
    {
      State(kind, containers, comments, nextId)
    }

    method CreateComment(userId: nat, containerId: nat, parentId: Option<nat>) returns (out: Outcome)
      modifies this
      ensures (Rows(), out) == Step(old(Rows()), Create(userId, containerId, parentId))
    {
      var parent := if parentId.Some? && parentId.value != 0 then parentId else None;
      if kind.Problems? && parent.Some? && parent.value !in comments {
        return NotFound;
      }
      var id := nextId;
      nextId := nextId + 1;
      var inserted := comments[id := Comment(userId, containerId, parent, 0, false)];
      if containerId !in containers || (parent.Some? && parent.value !in inserted) {
        return Rejected;
      }
      comments := inserted;
      if parent.Some? {
        var row := comments[parent.value];
        comments := comments[parent.value := row.(replyCount := row.replyCount + 1)];
      }
      if kind.Solutions? {
        containers := containers[containerId := containers[containerId] + 1];
      }
      out := Created(id, containerId, parent);
    }

    method DeleteComment(id: nat, userId: nat, isAdmin: bool) returns (out: Outcome)
      modifies this`comments, this`containers
      ensures (Rows(), out) == Step(old(Rows()), Delete(id, userId, isAdmin))
    {
      if id !in comments {
        return if kind.Solutions? then Quiet else NotFound;
      }
      var comment := comments[id];
      if !isAdmin && comment.authorId != userId {
        return Forbidden;
      }
      comments := comments[id := comment.(isDeleted := true)];
      if kind.Solutions? {
        if comment.parentId.Some? && comment.parentId.value in comments {
          var parent := comments[comment.parentId.value];
          comments := comments[comment.parentId.value := parent.(replyCount := parent.replyCount - 1)];
        }
        if comment.containerId in containers {
          containers := containers[comment.containerId := containers[comment.containerId] - 1];
        }
      }
      out := Deleted(id, comment.containerId, comment.parentId);
    }
  }
}
