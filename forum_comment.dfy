/**
 * Forum comments: the depth and thread path a new comment gets from its
 * parent, and the page offset of the comment lists. The comments table is
 * an object whose rows the insert changes; a failed insert rolls back.
 */
module ForumComment {
  import opened Wrappers
  import opened Strings
  import opened Json
  import Paginate

  datatype CommentRow = CommentRow(
    postId: int,
    userId: int,
    content: string,
    parentCommentId: Option<int>,
    depth: nat,
    threadPath: Option<string>)

  /** What addCommentToPostDB returns. */
  datatype Added = Added(commentId: int, parentCommentId: Option<int>, depth: nat, threadPath: Option<string>)

  const ParentNotFound := "Parent comment not found"
  const ParentOtherPost := "Parent comment does not belong to this post"
  const UserIdRequired := "User ID is required"

  /** A row's depth and path agree: depth 0 exactly when there is no path,
      and otherwise a non-empty path with one '-' fewer than the depth. */
  predicate PathShape(row: CommentRow) {
    (row.depth == 0 <==> row.threadPath.None?) &&
    (row.threadPath.Some? ==> row.threadPath.value != "" && CountChar(row.threadPath.value, '-') + 1 == row.depth)
  }

  /** `if (parent_comment_id)`: null, undefined and 0 mean a top-level comment. */
  predicate HasParent(parentCommentId: Option<int>) {
    parentCommentId.Some? && parentCommentId.value != 0
  }

  /** `parent.thread_path ? `${path}-${id}` : `${id}``. */
  function ChildPath(parentPath: Option<string>, parentId: int): string {
    if parentPath.Some? && parentPath.value != "" then parentPath.value + "-" + IntToString(parentId)
    else IntToString(parentId)
  }

  class CommentTable {
    var rows: map<int, CommentRow>
    var nextId: int

    /** Ids are positive and below the next auto-increment value, and every
        row's depth agrees with its path. */
    predicate Valid()
      reads this
    {
      0 < nextId &&
      forall id :: id in rows ==> 0 < id < nextId && PathShape(rows[id])
    }

    constructor ()
      ensures Valid() && rows == map[] && nextId == 1
    {
      rows := map[];
      nextId := 1;
    }

    /** addCommentToPostDB. A truthy parent id must name a row of the same
        post; the new row's depth is one more than the parent's and its path
        extends the parent's path by the parent id. */
    method AddCommentToPost(userId: int, postId: int, content: string, parentCommentId: Option<int>)
      returns (r: Result<Added, string>)
      requires Valid()
      modifies this
      ensures Valid()
      ensures r.Ok? <==>
        !(HasParent(parentCommentId) &&
          (parentCommentId.value !in old(rows) || old(rows)[parentCommentId.value].postId != postId))
      ensures r.Err? ==> r.error in {ParentNotFound, ParentOtherPost}
      ensures r.Err? ==> rows == old(rows) && nextId == old(nextId)
      ensures r == Err(ParentNotFound) <==> HasParent(parentCommentId) && parentCommentId.value !in old(rows)
      ensures r == Err(ParentOtherPost) <==>
        HasParent(parentCommentId) && parentCommentId.value in old(rows) && old(rows)[parentCommentId.value].postId != postId
      ensures r.Ok? ==> r.value.commentId == old(nextId) && nextId == old(nextId) + 1
      ensures r.Ok? ==>
        rows == old(rows)[old(nextId) := CommentRow(postId, userId, content, parentCommentId, r.value.depth, r.value.threadPath)]
      ensures r.Ok? && !HasParent(parentCommentId) ==> r.value.depth == 0 && r.value.threadPath.None?
      ensures r.Ok? && HasParent(parentCommentId) ==>
        r.value.depth == old(rows)[parentCommentId.value].depth + 1 &&
        r.value.threadPath == Some(ChildPath(old(rows)[parentCommentId.value].threadPath, parentCommentId.value))
    {
      var depth: nat := 0;
      var threadPath: Option<string> := None;
      if HasParent(parentCommentId) {
        var pid := parentCommentId.value;
        if pid !in rows {
          return Err(ParentNotFound);
        }
        var parent := rows[pid];
        if parent.postId != postId {
          return Err(ParentOtherPost);
        }
        depth := parent.depth + 1;
        threadPath := Some(ChildPath(parent.threadPath, pid));
        ChildPathShape(parent, pid);
      }
      var id := nextId;
      rows := rows[id := CommentRow(postId, userId, content, parentCommentId, depth, threadPath)];
      nextId := nextId + 1;
      r := Ok(Added(id, parentCommentId, depth, threadPath));
    }
  }

  /** A child of a well-shaped row with a positive id is well shaped. */
  lemma ChildPathShape(parent: CommentRow, pid: int)
    requires PathShape(parent) && pid > 0
    ensures PathShape(CommentRow(0, 0, "", Some(pid), parent.depth + 1, Some(ChildPath(parent.threadPath, pid))))
  {
    NatToStringNoDash(pid);
    CountCharAbsent(IntToString(pid), '-');
    if parent.threadPath.Some? {
      var p := parent.threadPath.value;
      CountCharConcat(p + "-", IntToString(pid), '-');
      CountCharConcat(p, "-", '-');
      assert CountChar("-", '-') == 1 by { assert "-"[1..] == []; }
    }
  }

  /** Split on '-', a row's thread path has as many components as its depth. */
  lemma ComponentsMatchDepth(row: CommentRow)
    requires PathShape(row) && row.threadPath.Some?
    ensures |Split(row.threadPath.value, '-')| == row.depth
  {
    SplitCount(row.threadPath.value, '-');
  }

  /** The comment lists page with offset (page - 1) * limit, so their pages
      follow each other without gaps. */
  lemma CommentPagesTile(page: int, limit: int)
    ensures Paginate.Offset(1, limit) == 0
    ensures Paginate.Offset(page + 1, limit) == Paginate.Offset(page, limit) + limit
  {
    Paginate.PagesTile(page, limit);
  }

  /** getAllCommentsByUserDB's argument check: a falsy user id throws before
      any query. */
  function CommentsByUserCheck(userId: Value): (r: Option<string>)
    ensures r.None? <==> JsTruthy(userId)
    ensures r.Some? ==> r.value == UserIdRequired
  {
    if !JsTruthy(userId) then Some(UserIdRequired) else None
  }
}
