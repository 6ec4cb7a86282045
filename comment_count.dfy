/**
 * The comment section's total: every comment counts once, with all its
 * replies, however deep.
 */
module CommentCount {

  /** A comment as the post page receives it; `hasReplies` is false where
      the replies field is absent or null. */
  datatype CommentPost = CommentPost(commentId: int, hasReplies: bool, replies: seq<CommentPost>)

  /** The ids of a forest in pre-order: each comment, then its replies. */
  function Flatten(comments: seq<CommentPost>): seq<int>
    decreases comments
  {
    if comments == [] then [] else Preorder(comments[0]) + Flatten(comments[1..])
  }

  function Preorder(c: CommentPost): seq<int>
    decreases c
  {
    [c.commentId] + (if c.hasReplies then Flatten(c.replies) else [])
  }

  /** Flattening distributes over concatenation. */
  lemma {:induction false} FlattenConcat(a: seq<CommentPost>, b: seq<CommentPost>)
    ensures Flatten(a + b) == Flatten(a) + Flatten(b)
  {
    if a != [] {
      assert (a + b)[0] == a[0];
      assert (a + b)[1..] == a[1..] + b;
      FlattenConcat(a[1..], b);
      var h := Preorder(a[0]);
      assert Flatten(a + b) == h + Flatten(a[1..] + b);
      assert Flatten(a) == h + Flatten(a[1..]);
      assert h + (Flatten(a[1..]) + Flatten(b)) == (h + Flatten(a[1..])) + Flatten(b);
    } else {
      assert a + b == b;
    }
  }

  /** The replies of one comment hold fewer comments than the whole list. */
  lemma RepliesSmaller(comments: seq<CommentPost>, i: nat)
    requires i < |comments| && comments[i].hasReplies
    ensures |Flatten(comments[i].replies)| < |Flatten(comments)|
  {
    var c := comments[i];
    assert comments == comments[..i] + ([c] + comments[i + 1..]);
    FlattenConcat(comments[..i], [c] + comments[i + 1..]);
    assert ([c] + comments[i + 1..])[1..] == comments[i + 1..];
  }

  /** countTotalComments: one for each comment, plus the count of its replies
      when it has any. The result is the number of comments in the forest. */
  method CountTotalComments(comments: seq<CommentPost>) returns (count: nat)
    ensures count == |Flatten(comments)|
    decreases |Flatten(comments)|
  {
    count := 0;
    for i := 0 to |comments|
      invariant count == |Flatten(comments[..i])|
    {
      var comment := comments[i];
      assert comments[..i + 1] == comments[..i] + [comment];
      FlattenConcat(comments[..i], [comment]);
      assert [comment][1..] == [];
      count := count + 1;
      if comment.hasReplies {
        RepliesSmaller(comments, i);
        var n := CountTotalComments(comment.replies);
        count := count + n;
      }
    }
    assert comments[..|comments|] == comments;
  }

  /** An empty comment list counts zero. */
  lemma EmptyCountsZero()
    ensures |Flatten([])| == 0
  {
  }

  /** Each top-level comment counts at least once. */
  lemma {:induction false} AtLeastTopLevel(comments: seq<CommentPost>)
    ensures |Flatten(comments)| >= |comments|
  {
    if comments != [] {
      AtLeastTopLevel(comments[1..]);
    }
  }

  /** A forest without replies counts exactly its top-level comments. */
  lemma {:induction false} NoRepliesCountsTopLevel(comments: seq<CommentPost>)
    requires forall i :: 0 <= i < |comments| ==> !comments[i].hasReplies || comments[i].replies == []
    ensures |Flatten(comments)| == |comments|
  {
    if comments != [] {
      assert Flatten([]) == [];
      assert |Preorder(comments[0])| == 1;
      NoRepliesCountsTopLevel(comments[1..]);
    }
  }

  /** The count of two lists together is the sum of their counts. */
  lemma CountAdditive(a: seq<CommentPost>, b: seq<CommentPost>)
    ensures |Flatten(a + b)| == |Flatten(a)| + |Flatten(b)|
  {
    FlattenConcat(a, b);
  }
}
