/**
 DiscussCommentService: comments on posts, and their hard deletion together with all replies below
 them, which a breadth-first search collects.

 createPostComment and deleteComment are one step each, but no transaction: after the insert or the
 deletion each of the two updates of a stored count may fail.  Ids come from a sequence, which a
 refused insert advances too.  Foreign keys are checked when a statement is done, so that a row can
 refer to itself, and that deleting a row which a remaining one refers to is refused.
 */
module Discussions {
  import opened Wrappers

  datatype Comment = Comment(authorId: nat, postId: nat, parentId: Option<nat>, replyCount: int)

  /** posts: the posts that exist, with their commentCount. */
  datatype State = State(posts: map<nat, int>, comments: map<nat, Comment>, nextId: nat)

  /** updates: how many of the updates run, first that of the post, then that of the parent. */
  datatype Op =
    | Publish(postId: nat)
    | Create(userId: nat, postId: nat, parentId: Option<nat>, updates: nat)
    | Delete(id: nat, userId: nat, isAdmin: bool, updates: nat)

  /** Created and Deleted tell of the row; with fewer than two updates the call throws after it. */
  datatype Outcome = Created(id: nat) | Deleted(ids: set<nat>) | Quiet | Rejected | NotFound | Forbidden

  const EMPTY := State(map[], map[], 1)

  // ---------------------------------------------------------------- threads

  /** x is a reply of that post to comment p. */
  predicate ChildOf(comments: map<nat, Comment>, postId: nat, x: nat, p: nat) {
    x in comments && comments[x].postId == postId && comments[x].parentId == Some(p)
  }

  /** Walking up from x, within the post, leads to the root. */
  predicate InThread(comments: map<nat, Comment>, root: nat, x: nat)
    requires root in comments
    decreases x
  {
    x == root
    || (x in comments && comments[x].postId == comments[root].postId && comments[x].parentId.Some?
        && comments[x].parentId.value < x && InThread(comments, root, comments[x].parentId.value))
  }

  function Thread(comments: map<nat, Comment>, root: nat): set<nat>
    requires root in comments
  {
    set x | x in comments && InThread(comments, root, x)
  }

  // ---------------------------------------------------------------- one step

  /** The update query on the parent's reply_count; it matches no row when the parent is absent. */
  function AddReplies(comments: map<nat, Comment>, parent: Option<nat>, n: int): map<nat, Comment> {
    if parent.Some? && parent.value in comments
    then comments[parent.value := comments[parent.value].(replyCount := comments[parent.value].replyCount + n)]
    else comments
  }

  function AddComments(posts: map<nat, int>, postId: nat, n: int): map<nat, int> {
    if postId in posts then posts[postId := posts[postId] + n] else posts
  }

  function DoCreate(s: State, userId: nat, postId: nat, parentId: Option<nat>, updates: nat): (State, Outcome) {
    var parent := if parentId == Some(0) then None else parentId;
    if postId !in s.posts || (parent.Some? && parent.value !in s.comments && parent.value != s.nextId)
    then (s.(nextId := s.nextId + 1), Rejected)
    else
      var comments := s.comments[s.nextId := Comment(userId, postId, parent, 0)];
      (State(if updates >= 1 then AddComments(s.posts, postId, 1) else s.posts,
             if updates >= 2 then AddReplies(comments, parent, 1) else comments, s.nextId + 1), Created(s.nextId))
  }

  /** A comment that stays refers to one that goes. */
  predicate Referred(comments: map<nat, Comment>, ids: set<nat>) {
    exists x | x in comments && x !in ids :: comments[x].parentId.Some? && comments[x].parentId.value in ids
  }

  function DoDelete(s: State, id: nat, userId: nat, isAdmin: bool, updates: nat): (State, Outcome) {
    if id !in s.comments then (s, NotFound) else
    var comment := s.comments[id];
    if !isAdmin && comment.authorId != userId then (s, Forbidden) else
    var ids := Thread(s.comments, id);
    if Referred(s.comments, ids) then (s, Rejected) else
    (State(if updates >= 1 then AddComments(s.posts, comment.postId, 0 - |ids|) else s.posts,
           if updates >= 2 then AddReplies(s.comments - ids, comment.parentId, -1) else s.comments - ids, s.nextId),
     Deleted(ids))
  }

  function Step(s: State, op: Op): (State, Outcome) {
    match op
    case Publish(postId) => (if postId in s.posts then s else s.(posts := s.posts[postId := 0]), Quiet)
    case Create(userId, postId, parentId, updates) => DoCreate(s, userId, postId, parentId, updates)
    case Delete(id, userId, isAdmin, updates) => DoDelete(s, id, userId, isAdmin, updates)
  }

  function After(ops: seq<Op>, k: nat): State
    requires k <= |ops|
  {
    if k == 0 then EMPTY else Step(After(ops, k - 1), ops[k - 1]).0
  }

  // ---------------------------------------------------------------- what every run keeps

  /** Every post and parent exists, and no parent has a greater id. */
  ghost predicate Rooted(s: State) {
    && 0 < s.nextId
    && forall id | id in s.comments ::
      && 0 < id < s.nextId && s.comments[id].postId in s.posts
      && (s.comments[id].parentId.Some? ==>
            s.comments[id].parentId.value in s.comments && s.comments[id].parentId.value <= id)
  }

  function OfPost(s: State, postId: nat): set<nat> {
    set x | x in s.comments && s.comments[x].postId == postId
  }

  function RepliesTo(s: State, c: nat): set<nat> {
    set x | x in s.comments && s.comments[x].parentId == Some(c)
  }

  /** How far the stored comment count of a post is above the number of its rows. */
  function PostError(s: State, p: nat): int {
    (if p in s.posts then s.posts[p] else 0) - |OfPost(s, p)|
  }

  /** How far the stored reply count of a comment is above the number of replies. */
  function ReplyError(s: State, c: nat): int {
    if c in s.comments then s.comments[c].replyCount - |RepliesTo(s, c)| else 0
  }

  /** Who refers to whom, as far as the thread of a comment goes. */
  lemma ThreadLinks(s: State, root: nat, x: nat)
    requires Rooted(s) && root in s.comments && x in s.comments
    ensures var thread := Thread(s.comments, root);
            && (x in thread ==>
                  s.comments[x].postId == s.comments[root].postId
                  && (x != root ==> s.comments[x].parentId.Some? && s.comments[x].parentId.value in thread))
            && (x !in thread && s.comments[x].parentId.Some? && s.comments[x].parentId.value in thread ==>
                  s.comments[x].postId != s.comments[root].postId)
  {}

  lemma CreateKeepsRooted(s: State, userId: nat, postId: nat, parentId: Option<nat>, updates: nat)
    requires Rooted(s)
    ensures Rooted(DoCreate(s, userId, postId, parentId, updates).0)
  {}

  lemma DeleteKeepsRooted(s: State, id: nat, userId: nat, isAdmin: bool, updates: nat)
    requires Rooted(s)
    ensures Rooted(DoDelete(s, id, userId, isAdmin, updates).0)
  {
    hide Thread;
  }

  lemma StepKeepsRooted(s: State, op: Op)
    requires Rooted(s)
    ensures Rooted(Step(s, op).0) && s.nextId <= Step(s, op).0.nextId
  {
    hide Thread, Referred, AddReplies, AddComments;
    match op
    case Publish(_) =>
    case Create(userId, postId, parentId, updates) => CreateKeepsRooted(s, userId, postId, parentId, updates);
    case Delete(id, userId, isAdmin, updates) => DeleteKeepsRooted(s, id, userId, isAdmin, updates);
  }

  lemma {:induction false} AlwaysRooted(ops: seq<Op>, k: nat)
    requires k <= |ops|
    ensures Rooted(After(ops, k))
  {
    hide Step;
    if k > 0 {
      AlwaysRooted(ops, k - 1);
      StepKeepsRooted(After(ops, k - 1), ops[k - 1]);
    }
  }

  // ---------------------------------------------------------------- what one step does to the counts

  /** By how much an update of the post that does not run leaves its count off. */
  function PostLoss(s: State, op: Op, p: nat): int {
    match Step(s, op).1
    case Created(_) => if op.Create? && op.postId == p && op.updates < 1 then -1 else 0
    case Deleted(ids) =>
      if op.Delete? && op.id in s.comments && s.comments[op.id].postId == p && op.updates < 1 then |ids| else 0
    case _ => 0
  }

  /** By how much an update of the parent that does not run leaves its count off. */
  function ReplyLoss(s: State, op: Op, c: nat): int {
    match Step(s, op).1
    case Created(_) => if op.Create? && op.parentId == Some(c) && c != 0 && op.updates < 2 then -1 else 0
    case Deleted(_) =>
      if op.Delete? && op.id in s.comments && s.comments[op.id].parentId == Some(c) && op.updates < 2 then 1 else 0
    case _ => 0
  }

  lemma CreateAdds(s: State, userId: nat, postId: nat, parentId: Option<nat>, updates: nat, g: nat)
    requires Rooted(s)
    ensures var (t, out) := DoCreate(s, userId, postId, parentId, updates);
            && OfPost(t, g) == OfPost(s, g) + (if out.Created? && postId == g then {s.nextId} else {})
            && RepliesTo(t, g) == RepliesTo(s, g)
                 + (if out.Created? && parentId == Some(g) && g != 0 then {s.nextId} else {})
            && s.nextId !in OfPost(s, g) && s.nextId !in RepliesTo(s, g)
            && RepliesTo(s, s.nextId) == {}
  {}

  /** The stored counts after a creation; a count that is not there counts nothing. */
  lemma CreateCounts(s: State, userId: nat, postId: nat, parentId: Option<nat>, updates: nat, g: nat)
    requires Rooted(s) && DoCreate(s, userId, postId, parentId, updates).1.Created?
    ensures var t := DoCreate(s, userId, postId, parentId, updates).0;
            && (g in t.posts <==> g in s.posts)
            && (g in s.posts ==> t.posts[g] == s.posts[g] + (if postId == g && updates >= 1 then 1 else 0))
            && (postId == g ==> g in s.posts)
            && (g in t.comments <==> g in s.comments || g == s.nextId)
            && (parentId == Some(g) && g != 0 ==> g in t.comments)
            && (g in t.comments ==>
                  t.comments[g].replyCount == (if g in s.comments then s.comments[g].replyCount else 0)
                                              + (if parentId == Some(g) && g != 0 && updates >= 2 then 1 else 0))
  {}

  lemma CreateErrors(s: State, userId: nat, postId: nat, parentId: Option<nat>, updates: nat, g: nat)
    requires Rooted(s)
    ensures var op := Create(userId, postId, parentId, updates);
            var t := DoCreate(s, userId, postId, parentId, updates).0;
            && PostError(t, g) == PostError(s, g) + PostLoss(s, op, g)
            && (g in t.comments ==> ReplyError(t, g) == ReplyError(s, g) + ReplyLoss(s, op, g))
  {
    CreateAdds(s, userId, postId, parentId, updates, g);
    if DoCreate(s, userId, postId, parentId, updates).1.Created? {
      CreateCounts(s, userId, postId, parentId, updates, g);
      hide DoCreate, OfPost, RepliesTo, Rooted;
    }
  }

  lemma ThreadIsOfPost(s: State, id: nat)
    requires Rooted(s) && id in s.comments
    ensures Thread(s.comments, id) <= OfPost(s, s.comments[id].postId)
  {
    forall x | x in Thread(s.comments, id) ensures s.comments[x].postId == s.comments[id].postId {
      ThreadLinks(s, id, x);
    }
  }

  lemma DeleteTakesOfPost(s: State, id: nat, userId: nat, isAdmin: bool, updates: nat, g: nat)
    requires Rooted(s) && DoDelete(s, id, userId, isAdmin, updates).1.Deleted?
    ensures var t := DoDelete(s, id, userId, isAdmin, updates).0;
            OfPost(t, g) == if g == s.comments[id].postId then OfPost(s, g) - Thread(s.comments, id) else OfPost(s, g)
  {
    ThreadIsOfPost(s, id);
    hide Thread, Referred, Rooted;
  }

  /** A comment that stays loses only the root of the thread from its replies. */
  lemma DeleteTakesReplies(s: State, id: nat, userId: nat, isAdmin: bool, updates: nat, g: nat)
    requires Rooted(s) && DoDelete(s, id, userId, isAdmin, updates).1.Deleted?
    requires g in DoDelete(s, id, userId, isAdmin, updates).0.comments
    ensures RepliesTo(DoDelete(s, id, userId, isAdmin, updates).0, g)
         == RepliesTo(s, g) - (if s.comments[id].parentId == Some(g) then {id} else {})
  {
    var ids := Thread(s.comments, id);
    forall x | x in ids && x != id ensures s.comments[x].parentId.Some? && s.comments[x].parentId.value in ids {
      ThreadLinks(s, id, x);
    }
    assert id in ids;
    hide Thread, Referred, Rooted;
  }

  lemma SizeWithout(a: set<nat>, b: set<nat>)
    requires b <= a
    ensures |a - b| == |a| - |b|
  {}

  lemma ReplyIsThere(s: State, id: nat, c: nat)
    requires id in s.comments && s.comments[id].parentId == Some(c)
    ensures {id} <= RepliesTo(s, c)
  {}

  lemma DeletePostError(s: State, id: nat, userId: nat, isAdmin: bool, updates: nat, p: nat)
    requires Rooted(s)
    ensures PostError(DoDelete(s, id, userId, isAdmin, updates).0, p)
         == PostError(s, p) + PostLoss(s, Delete(id, userId, isAdmin, updates), p)
  {
    if DoDelete(s, id, userId, isAdmin, updates).1.Deleted? {
      DeleteTakesOfPost(s, id, userId, isAdmin, updates, p);
      ThreadIsOfPost(s, id);
      assert s.comments[id].postId in s.posts;
      hide Thread, OfPost, Referred, Rooted, AddReplies;
      if p == s.comments[id].postId {
        SizeWithout(OfPost(s, p), Thread(s.comments, id));
      }
    }
  }

  lemma DeleteReplyError(s: State, id: nat, userId: nat, isAdmin: bool, updates: nat, c: nat)
    requires Rooted(s) && c in DoDelete(s, id, userId, isAdmin, updates).0.comments
    ensures ReplyError(DoDelete(s, id, userId, isAdmin, updates).0, c)
         == ReplyError(s, c) + ReplyLoss(s, Delete(id, userId, isAdmin, updates), c)
  {
    if DoDelete(s, id, userId, isAdmin, updates).1.Deleted? {
      DeleteTakesReplies(s, id, userId, isAdmin, updates, c);
      if s.comments[id].parentId == Some(c) {
        ReplyIsThere(s, id, c);
        SizeWithout(RepliesTo(s, c), {id});
      }
      hide Thread, RepliesTo, Referred, Rooted, AddComments;
    }
  }

  lemma PublishErrors(s: State, postId: nat, g: nat)
    requires Rooted(s)
    ensures var t := Step(s, Publish(postId)).0;
            PostError(t, g) == PostError(s, g) && ReplyError(t, g) == ReplyError(s, g)
  {
    var t := Step(s, Publish(postId)).0;
    assert OfPost(t, g) == OfPost(s, g) && RepliesTo(t, g) == RepliesTo(s, g);
  }

  /** A step puts the counts off by the updates that it does not run, and by nothing else. */
  lemma StepOnErrors(s: State, op: Op, g: nat)
    requires Rooted(s)
    ensures var t := Step(s, op).0;
            && PostError(t, g) == PostError(s, g) + PostLoss(s, op, g)
            && (g in t.comments ==> ReplyError(t, g) == ReplyError(s, g) + ReplyLoss(s, op, g))
  {
    hide Rooted, Thread, PostError, ReplyError, DoCreate, DoDelete;
    match op
    case Publish(postId) => PublishErrors(s, postId, g);
    case Create(userId, postId, parentId, updates) => CreateErrors(s, userId, postId, parentId, updates, g);
    case Delete(id, userId, isAdmin, updates) =>
      DeletePostError(s, id, userId, isAdmin, updates, g);
      if g in Step(s, op).0.comments {
        DeleteReplyError(s, id, userId, isAdmin, updates, g);
      }
  }

  // ---------------------------------------------------------------- counting over the run

  function PostDrift(ops: seq<Op>, k: nat, p: nat): int
    requires k <= |ops|
  {
    if k == 0 then 0 else PostDrift(ops, k - 1, p) + PostLoss(After(ops, k - 1), ops[k - 1], p)
  }

  function ReplyDrift(ops: seq<Op>, k: nat, c: nat): int
    requires k <= |ops|
  {
    if k == 0 then 0 else ReplyDrift(ops, k - 1, c) + ReplyLoss(After(ops, k - 1), ops[k - 1], c)
  }

  /** An id that was not given out yet has lost nothing. */
  lemma {:induction false} NothingLostYet(ops: seq<Op>, k: nat, c: nat)
    requires k <= |ops| && After(ops, k).nextId <= c
    ensures ReplyDrift(ops, k, c) == 0
  {
    hide Step, ReplyLoss;
    if k > 0 {
      AlwaysRooted(ops, k - 1);
      StepKeepsRooted(After(ops, k - 1), ops[k - 1]);
      NothingLostYet(ops, k - 1, c);
      LossNeedsComment(After(ops, k - 1), ops[k - 1], c);
    }
  }

  lemma LossNeedsComment(s: State, op: Op, c: nat)
    requires Rooted(s)
    ensures ReplyLoss(s, op, c) != 0 ==> c < Step(s, op).0.nextId
  {
    hide Thread, Referred;
  }

  /**
   Main result: after every run each stored count is the number of rows, but for the updates that did not
   run: creations that were not counted, and deletions of a thread that were not taken off.
   */
  lemma {:induction false} CountsDrift(ops: seq<Op>, k: nat, g: nat)
    requires k <= |ops|
    ensures PostError(After(ops, k), g) == PostDrift(ops, k, g)
    ensures g in After(ops, k).comments ==> ReplyError(After(ops, k), g) == ReplyDrift(ops, k, g)
  {
    if k == 0 {
      assert OfPost(EMPTY, g) == {};
    } else {
      hide Step, PostLoss, ReplyLoss, Rooted, PostError;
      var s := After(ops, k - 1);
      CountsDrift(ops, k - 1, g);
      AlwaysRooted(ops, k - 1);
      StepOnErrors(s, ops[k - 1], g);
      if g in After(ops, k).comments && g !in s.comments {
        NewIsNext(s, ops[k - 1], g);
        NothingLostYet(ops, k - 1, g);
      }
    }
  }

  lemma NewIsNext(s: State, op: Op, c: nat)
    requires c in Step(s, op).0.comments && c !in s.comments
    ensures c == s.nextId
  {
    hide Thread, Referred;
  }

  /** When all updates ran all counts are exact, whatever was deleted, with whatever was below it. */
  lemma {:induction false} CountsExactWhenAllRan(ops: seq<Op>, k: nat, g: nat)
    requires k <= |ops|
    requires forall i | 0 <= i < k && !ops[i].Publish? :: ops[i].updates >= 2
    ensures var s := After(ops, k);
            && (g in s.posts ==> s.posts[g] == |OfPost(s, g)|)
            && (g in s.comments ==> s.comments[g].replyCount == |RepliesTo(s, g)|)
  {
    CountsDrift(ops, k, g);
    NoDrift(ops, k, g);
  }

  lemma {:induction false} NoDrift(ops: seq<Op>, k: nat, g: nat)
    requires k <= |ops|
    requires forall i | 0 <= i < k && !ops[i].Publish? :: ops[i].updates >= 2
    ensures PostDrift(ops, k, g) == 0 && ReplyDrift(ops, k, g) == 0
  {
    hide Step;
    if k > 0 {
      NoDrift(ops, k - 1, g);
    }
  }

  // ---------------------------------------------------------------- who may do what

  /**
   A comment is created exactly when its post is there and its parent, if one is given, is too or is the comment
   itself.  The sequence moves on either way.
   */
  lemma CreateSucceedsIff(s: State, userId: nat, postId: nat, parentId: Option<nat>, updates: nat)
    requires Rooted(s)
    ensures var (t, out) := Step(s, Create(userId, postId, parentId, updates));
            var given := parentId.Some? && parentId.value != 0;
            && (out.Created? <==> (
                  postId in s.posts && (!given || parentId.value in s.comments || parentId.value == s.nextId)))
            && (if out.Created? then out == Created(s.nextId) && t.comments.Keys == s.comments.Keys + {s.nextId}
                else out == Rejected && t.comments == s.comments && t.posts == s.posts)
            && (out.Created? ==> var row := t.comments[s.nextId];
                  row.authorId == userId && row.postId == postId
                  && row.parentId == if given then parentId else None)
            && t.nextId == s.nextId + 1
  {}

  lemma DeleteNeedsComment(s: State, id: nat, userId: nat, isAdmin: bool, updates: nat)
    ensures id !in s.comments <==> Step(s, Delete(id, userId, isAdmin, updates)) == (s, NotFound)
  {
    hide Thread, Referred;
  }

  /** A comment keeps its author and its place as long as it is there; a post, once there, stays. */
  lemma RowsKeepPlace(s: State, op: Op, o: nat)
    requires Rooted(s)
    ensures var t := Step(s, op).0;
            && (o in s.comments && o in t.comments ==>
                  t.comments[o].authorId == s.comments[o].authorId && t.comments[o].postId == s.comments[o].postId
                  && t.comments[o].parentId == s.comments[o].parentId)
            && (o in t.posts <==> o in s.posts || op == Publish(o))
  {
    hide Thread, Referred;
  }

  // ---------------------------------------------------------------- when a deletion is refused

  /** A comment on another post replies to a comment of the thread. */
  predicate RepliedFromElsewhere(s: State, root: nat)
    requires root in s.comments
  {
    exists x | x in s.comments ::
      s.comments[x].postId != s.comments[root].postId && s.comments[x].parentId.Some?
      && s.comments[x].parentId.value in Thread(s.comments, root)
  }

  /**
   After any run, a comment's author, or an admin, can delete it exactly when no comment on another post
   replies into its thread; the thread goes, and nothing else.
   */
  lemma DeleteSucceedsIff(ops: seq<Op>, k: nat, id: nat, userId: nat, isAdmin: bool, updates: nat)
    requires k <= |ops| && id in After(ops, k).comments
    ensures var s := After(ops, k);
            var (t, out) := Step(s, Delete(id, userId, isAdmin, updates));
            && (out.Deleted? <==> (isAdmin || s.comments[id].authorId == userId) && !RepliedFromElsewhere(s, id))
            && (out == Forbidden <==> !isAdmin && s.comments[id].authorId != userId)
            && (out.Deleted? ==> out == Deleted(Thread(s.comments, id)))
            && (!out.Deleted? && out != Forbidden ==> out == Rejected)
            && (if out.Deleted? then t.comments.Keys == s.comments.Keys - Thread(s.comments, id) else t == s)
  {
    var s := After(ops, k);
    AlwaysRooted(ops, k);
    ReferredIff(s, id);
    hide Thread, Rooted, RepliedFromElsewhere, Referred;
  }

  lemma ReferredIff(s: State, id: nat)
    requires Rooted(s) && id in s.comments
    ensures Referred(s.comments, Thread(s.comments, id)) <==> RepliedFromElsewhere(s, id)
  {
    forall x | x in s.comments
      ensures x in Thread(s.comments, id) ==> s.comments[x].postId == s.comments[id].postId
      ensures (x !in Thread(s.comments, id) && s.comments[x].parentId.Some?
               && s.comments[x].parentId.value in Thread(s.comments, id))
              ==> s.comments[x].postId != s.comments[id].postId
    {
      ThreadLinks(s, id, x);
    }
    hide Thread;
  }

  // ---------------------------------------------------------------- the search

  /** Every reply of the post to a comment that was found, and is not waiting in the queue, was found. */
  ghost predicate ClosedBut(comments: map<nat, Comment>, postId: nat, found: set<nat>, waiting: seq<nat>) {
    forall x, p :: ChildOf(comments, postId, x, p) && p in found && p !in waiting ==> x in found
  }

  lemma {:induction false} ClosedHoldsThread(comments: map<nat, Comment>, root: nat, found: set<nat>, x: nat)
    requires root in comments && root in found && ClosedBut(comments, comments[root].postId, found, [])
    requires InThread(comments, root, x)
    ensures x in found
    decreases x
  {
    if x != root {
      ClosedHoldsThread(comments, root, found, comments[x].parentId.value);
      assert ChildOf(comments, comments[root].postId, x, comments[x].parentId.value);
    }
  }

  /** A reply to a member of the thread is a member. */
  lemma ChildInThread(s: State, root: nat, x: nat, p: nat)
    requires Rooted(s) && root in s.comments && p in Thread(s.comments, root)
    requires ChildOf(s.comments, s.comments[root].postId, x, p)
    ensures x in Thread(s.comments, root)
  {}

  /** The breadth-first search over the comments of the post, listed in any order. */
  method CollectThread(s: State, root: nat, allPostComments: seq<nat>) returns (idsToDelete: set<nat>)
    requires Rooted(s) && root in s.comments
    requires forall x :: x in allPostComments <==> x in s.comments && s.comments[x].postId == s.comments[root].postId
    ensures idsToDelete == Thread(s.comments, root)
  {
    ghost var thread, post := Thread(s.comments, root), s.comments[root].postId;
    idsToDelete := {root};
    var queue := [root];
    while |queue| > 0
      invariant root in idsToDelete && idsToDelete <= thread
      invariant forall q | q in queue :: q in idsToDelete
      invariant ClosedBut(s.comments, post, idsToDelete, queue)
      decreases thread - idsToDelete, |queue|
    {
      var currentId := queue[0];
      ghost var before, rest := idsToDelete, queue[1..];
      queue := queue[1..];
      var i := 0;
      while i < |allPostComments|
        invariant i <= |allPostComments|
        invariant before <= idsToDelete <= thread && rest <= queue
        invariant idsToDelete == before ==> queue == rest
        invariant forall q | q in queue :: q in idsToDelete
        invariant forall x | x in idsToDelete && x !in before :: x in queue
        invariant forall j | 0 <= j < i && ChildOf(s.comments, post, allPostComments[j], currentId) ::
                    allPostComments[j] in idsToDelete
      {
        hide Thread, InThread, Rooted, ClosedBut;
        var child := allPostComments[i];
        if s.comments[child].parentId == Some(currentId) && child !in idsToDelete {
          ChildInThread(s, root, child, currentId);
          idsToDelete := idsToDelete + {child};
          queue := queue + [child];
        }
        i := i + 1;
      }
      forall x, p | ChildOf(s.comments, post, x, p) && p in idsToDelete && p !in queue ensures x in idsToDelete {
        assert x in allPostComments;
        if p != currentId {
          assert p in before && p !in [currentId] + rest;
        }
      }
    }
    forall x | x in thread ensures x in idsToDelete {
      ClosedHoldsThread(s.comments, root, idsToDelete, x);
    }
  }

  // ---------------------------------------------------------------- the service

  class DiscussCommentService {
    var posts: map<nat, int>
    var comments: map<nat, Comment>
    var nextId: nat

    constructor ()
      ensures Rows() == EMPTY
    {
      posts, comments, nextId := map[], map[], 1;
    }

    ghost function Rows(): State
      reads this
    {
      State(posts, comments, nextId)
    }

    method CreatePostComment(userId: nat, postId: nat, parentId: Option<nat>, updates: nat) returns (out: Outcome)
      modifies this
      ensures (Rows(), out) == Step(old(Rows()), Create(userId, postId, parentId, updates))
    {
      var parent := if parentId.Some? && parentId.value != 0 then parentId else None;
      var id := nextId;
      nextId := nextId + 1;
      var inserted := comments[id := Comment(userId, postId, parent, 0)];
      if postId !in posts || (parent.Some? && parent.value !in inserted) {
        return Rejected;
      }
      comments := inserted;
      out := Created(id);
      if updates < 1 {
        return;
      }
      posts := posts[postId := posts[postId] + 1];
      if updates < 2 {
        return;
      }
      if parent.Some? {
        var row := comments[parent.value];
        comments := comments[parent.value := row.(replyCount := row.replyCount + 1)];
      }
    }

    /** allPostComments: the ids of the post's comments, as the query lists them. */
    method DeleteComment(id: nat, userId: nat, isAdmin: bool, updates: nat, allPostComments: seq<nat>)
      returns (out: Outcome)
      requires Rooted(Rows())
      requires id in comments ==>
        forall x :: x in allPostComments <==> x in comments && comments[x].postId == comments[id].postId
      modifies this`comments, this`posts
      ensures (Rows(), out) == Step(old(Rows()), Delete(id, userId, isAdmin, updates))
    {
      hide Rooted, Thread;
      if id !in comments {
        return NotFound;
      }
      var comment := comments[id];
      if !isAdmin && comment.authorId != userId {
        return Forbidden;
      }
      var idsToDelete := CollectThread(State(posts, comments, nextId), id, allPostComments);
      if exists x | x in comments && x !in idsToDelete ::
           comments[x].parentId.Some? && comments[x].parentId.value in idsToDelete {
        return Rejected;
      }
      comments := comments - idsToDelete;
      out := Deleted(idsToDelete);
      if updates < 1 {
        return;
      }
      if comment.postId in posts {
        posts := posts[comment.postId := posts[comment.postId] - |idsToDelete|];
      }
      if updates < 2 {
        return;
      }
      if comment.parentId.Some? && comment.parentId.value in comments {
        var parent := comments[comment.parentId.value];
        comments := comments[comment.parentId.value := parent.(replyCount := parent.replyCount - 1)];
      }
    }
  }
}
