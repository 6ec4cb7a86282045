/**
 * Post likes and comment likes. Each table is a set of pairs; a like adds
 * its pair, an unlike removes it, and an operation that fails rolls its
 * transaction back and leaves the tables as they were.
 */
module ForumLike {
  import opened Wrappers

  const AlreadyLikedPost := "You have already liked this post"
  const NotLikedPost := "You have not liked this post"
  const AlreadyLikedComment := "You have already liked this comment"
  const NotLikedComment := "Comment not liked"

  class LikeTables {
    /** forum_likes rows as (post_id, user_id). */
    var postLikes: set<(int, int)>
    /** forum_comment_likes rows as (user_id, comment_id). */
    var commentLikes: set<(int, int)>

    constructor (postLikes0: set<(int, int)>, commentLikes0: set<(int, int)>)
      ensures postLikes == postLikes0 && commentLikes == commentLikes0
    {
      postLikes := postLikes0;
      commentLikes := commentLikes0;
    }

    /** likePostDB. */
    method LikePost(userId: int, postId: int) returns (r: Result<string, string>)
      modifies this
      ensures r.Err? <==> (postId, userId) in old(postLikes)
      ensures r.Err? ==> r.error == AlreadyLikedPost && postLikes == old(postLikes)
      ensures r.Ok? ==> r.value == "Post liked successfully" && postLikes == old(postLikes) + {(postId, userId)}
      ensures commentLikes == old(commentLikes)
    {
      if (postId, userId) in postLikes {
        return Err(AlreadyLikedPost);
      }
      postLikes := postLikes + {(postId, userId)};
      r := Ok("Post liked successfully");
    }

    /** unlikePostDB. */
    method UnlikePost(userId: int, postId: int) returns (r: Result<string, string>)
      modifies this
      ensures r.Err? <==> (postId, userId) !in old(postLikes)
      ensures r.Err? ==> r.error == NotLikedPost && postLikes == old(postLikes)
      ensures r.Ok? ==> r.value == "Post unliked successfully" && postLikes == old(postLikes) - {(postId, userId)}
      ensures commentLikes == old(commentLikes)
    {
      if (postId, userId) !in postLikes {
        return Err(NotLikedPost);
      }
      postLikes := postLikes - {(postId, userId)};
      r := Ok("Post unliked successfully");
    }

    /** likeCommentDB. */
    method LikeComment(userId: int, commentId: int) returns (r: Result<string, string>)
      modifies this
      ensures r.Err? <==> (userId, commentId) in old(commentLikes)
      ensures r.Err? ==> r.error == AlreadyLikedComment && commentLikes == old(commentLikes)
      ensures r.Ok? ==> r.value == "Comment liked successfully" && commentLikes == old(commentLikes) + {(userId, commentId)}
      ensures postLikes == old(postLikes)
    {
      if (userId, commentId) in commentLikes {
        return Err(AlreadyLikedComment);
      }
      commentLikes := commentLikes + {(userId, commentId)};
      r := Ok("Comment liked successfully");
    }

    /** unlikeCommentDB; its postId argument is never used. */
    method UnlikeComment(userId: int, commentId: int, postId: int) returns (r: Result<string, string>)
      modifies this
      ensures r.Err? <==> (userId, commentId) !in old(commentLikes)
      ensures r.Err? ==> r.error == NotLikedComment && commentLikes == old(commentLikes)
      ensures r.Ok? ==> r.value == "Comment unliked successfully" && commentLikes == old(commentLikes) - {(userId, commentId)}
      ensures postLikes == old(postLikes)
    {
      if (userId, commentId) !in commentLikes {
        return Err(NotLikedComment);
      }
      commentLikes := commentLikes - {(userId, commentId)};
      r := Ok("Comment unliked successfully");
    }
  }

  /** Liking twice in a row never succeeds twice, and the table holds the pair
      once whichever call succeeds. */
  method LikeTwice(tables: LikeTables, userId: int, postId: int) returns (first: Result<string, string>, second: Result<string, string>)
    modifies tables
    ensures second == Err(AlreadyLikedPost)
    ensures tables.postLikes == old(tables.postLikes) + {(postId, userId)}
  {
    first := tables.LikePost(userId, postId);
    second := tables.LikePost(userId, postId);
  }

  /** Like then unlike on a table without the pair leaves both tables as they were. */
  method LikeThenUnlike(tables: LikeTables, userId: int, postId: int) returns (liked: Result<string, string>, unliked: Result<string, string>)
    requires (postId, userId) !in tables.postLikes
    modifies tables
    ensures liked.Ok? && unliked.Ok?
    ensures tables.postLikes == old(tables.postLikes) && tables.commentLikes == old(tables.commentLikes)
  {
    liked := tables.LikePost(userId, postId);
    unliked := tables.UnlikePost(userId, postId);
    assert (old(tables.postLikes) + {(postId, userId)}) - {(postId, userId)} == old(tables.postLikes);
  }

  /** Unlike then like on a table holding the pair leaves both tables as they were. */
  method UnlikeThenLike(tables: LikeTables, userId: int, postId: int) returns (unliked: Result<string, string>, liked: Result<string, string>)
    requires (postId, userId) in tables.postLikes
    modifies tables
    ensures unliked.Ok? && liked.Ok?
    ensures tables.postLikes == old(tables.postLikes) && tables.commentLikes == old(tables.commentLikes)
  {
    unliked := tables.UnlikePost(userId, postId);
    liked := tables.LikePost(userId, postId);
    assert (old(tables.postLikes) - {(postId, userId)}) + {(postId, userId)} == old(tables.postLikes);
  }

  /** The same round trip for a comment like: like then unlike restores both tables. */
  method CommentLikeThenUnlike(tables: LikeTables, userId: int, commentId: int, postId: int)
    returns (liked: Result<string, string>, unliked: Result<string, string>)
    requires (userId, commentId) !in tables.commentLikes
    modifies tables
    ensures liked.Ok? && unliked.Ok?
    ensures tables.postLikes == old(tables.postLikes) && tables.commentLikes == old(tables.commentLikes)
  {
    liked := tables.LikeComment(userId, commentId);
    unliked := tables.UnlikeComment(userId, commentId, postId);
    assert (old(tables.commentLikes) + {(userId, commentId)}) - {(userId, commentId)} == old(tables.commentLikes);
  }

  /** Unlike then like on a comment like restores both tables. */
  method CommentUnlikeThenLike(tables: LikeTables, userId: int, commentId: int, postId: int)
    returns (unliked: Result<string, string>, liked: Result<string, string>)
    requires (userId, commentId) in tables.commentLikes
    modifies tables
    ensures unliked.Ok? && liked.Ok?
    ensures tables.postLikes == old(tables.postLikes) && tables.commentLikes == old(tables.commentLikes)
  {
    unliked := tables.UnlikeComment(userId, commentId, postId);
    liked := tables.LikeComment(userId, commentId);
    assert (old(tables.commentLikes) - {(userId, commentId)}) + {(userId, commentId)} == old(tables.commentLikes);
  }
}
