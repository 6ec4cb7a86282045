/**
 * Forum posts: the reply tree built from a post's flat comment list, the
 * tag list decoded from the comma-joined tag column, the SET list of a post
 * update and the tag bookkeeping when a post is created. Database tables
 * are values passed in.
 */
module ForumPost {
  import opened Wrappers
  import opened Strings
  import opened Seqs

  /** One row of the comment query: its id and its parent comment (null for a
      top-level comment). The other columns are carried along unread. */
  datatype FlatComment = FlatComment(commentId: int, parentCommentId: Option<int>)

  /** A comment with its replies attached. */
  datatype Node = Node(comment: FlatComment, replies: seq<Node>)

  /** The comments whose parent is `parentId`, in the order of the flat list. */
  function ChildrenOf(comments: seq<FlatComment>, parentId: Option<int>): seq<FlatComment> {
    Filter(comments, (c: FlatComment) => c.parentCommentId == parentId)
  }

  /** An acyclic parent relation, witnessed by a rank that every comment has
      below its parent (and every top-level comment below the root). */
  predicate Ranked(comments: seq<FlatComment>, rank: Option<int> -> nat) {
    forall c :: c in comments ==> rank(Some(c.commentId)) < rank(c.parentCommentId)
  }

  lemma ChildrenMembers(comments: seq<FlatComment>, parentId: Option<int>)
    ensures forall k :: 0 <= k < |ChildrenOf(comments, parentId)| ==>
      ChildrenOf(comments, parentId)[k] in comments && ChildrenOf(comments, parentId)[k].parentCommentId == parentId
  {
    var p := (c: FlatComment) => c.parentCommentId == parentId;
    forall k | 0 <= k < |ChildrenOf(comments, parentId)|
      ensures ChildrenOf(comments, parentId)[k] in comments
    {
      FilterMembers(comments, p, ChildrenOf(comments, parentId)[k]);
    }
  }

  /** buildCommentTree(parentId): the children of parentId, each with its own
      tree of replies. */
  function Tree(comments: seq<FlatComment>, rank: Option<int> -> nat, parentId: Option<int>): seq<Node>
    requires Ranked(comments, rank)
    decreases rank(parentId), 1
  {
    ChildrenMembers(comments, parentId);
    Nodes(comments, rank, ChildrenOf(comments, parentId), parentId)
  }

  /** The `.map` step: each child with its replies. */
  function Nodes(comments: seq<FlatComment>, rank: Option<int> -> nat, kids: seq<FlatComment>, parentId: Option<int>): seq<Node>
    requires Ranked(comments, rank)
    requires forall k :: 0 <= k < |kids| ==> kids[k] in comments && kids[k].parentCommentId == parentId
    decreases rank(parentId), 0, |kids|
  {
    if kids == [] then []
    else [Node(kids[0], Tree(comments, rank, Some(kids[0].commentId)))] + Nodes(comments, rank, kids[1..], parentId)
  }

  /** buildCommentTree() with its default argument null. */
  function BuildCommentTree(comments: seq<FlatComment>, rank: Option<int> -> nat): (r: seq<Node>)
    requires Ranked(comments, rank)
    ensures NodeComments(r) == ChildrenOf(comments, None)
    ensures forall n | n in r :: BuiltNode(comments, n)
  {
    TreeBuilt(comments, rank, None);
    Tree(comments, rank, None)
  }

  /** post.comments: the tree when replies are included, else the flat list. */
  datatype PostComments = Flat(rows: seq<FlatComment>) | Nested(roots: seq<Node>)

  function CommentsOfPost(comments: seq<FlatComment>, rank: Option<int> -> nat, includeCommentReplies: bool): (r: PostComments)
    requires Ranked(comments, rank)
    ensures !includeCommentReplies ==> r == Flat(comments)
    ensures includeCommentReplies ==> r.Nested? && NodeComments(r.roots) == ChildrenOf(comments, None)
  {
    TreeBuilt(comments, rank, None);
    if includeCommentReplies then Nested(BuildCommentTree(comments, rank)) else Flat(comments)
  }

  /** The comments of a list of nodes, in order. */
  function NodeComments(ns: seq<Node>): (r: seq<FlatComment>)
    ensures |r| == |ns|
  {
    seq(|ns|, i requires 0 <= i < |ns| => ns[i].comment)
  }

  /** A node is built correctly when its comment is one of the rows, its
      replies are exactly its children in flat order, and so on down. */
  predicate BuiltNode(comments: seq<FlatComment>, n: Node)
    decreases n
  {
    n.comment in comments &&
    NodeComments(n.replies) == ChildrenOf(comments, Some(n.comment.commentId)) &&
    forall r | r in n.replies :: BuiltNode(comments, r)
  }

  /** Every level of the tree lists exactly the children of its parent. */
  lemma TreeBuilt(comments: seq<FlatComment>, rank: Option<int> -> nat, parentId: Option<int>)
    requires Ranked(comments, rank)
    ensures NodeComments(Tree(comments, rank, parentId)) == ChildrenOf(comments, parentId)
    ensures forall n | n in Tree(comments, rank, parentId) :: BuiltNode(comments, n)
    decreases rank(parentId), 1
  {
    ChildrenMembers(comments, parentId);
    NodesBuilt(comments, rank, ChildrenOf(comments, parentId), parentId);
  }

  lemma NodesBuilt(comments: seq<FlatComment>, rank: Option<int> -> nat, kids: seq<FlatComment>, parentId: Option<int>)
    requires Ranked(comments, rank)
    requires forall k :: 0 <= k < |kids| ==> kids[k] in comments && kids[k].parentCommentId == parentId
    ensures NodeComments(Nodes(comments, rank, kids, parentId)) == kids
    ensures forall n | n in Nodes(comments, rank, kids, parentId) :: BuiltNode(comments, n)
    decreases rank(parentId), 0, |kids|
  {
    if kids != [] {
      var head := Node(kids[0], Tree(comments, rank, Some(kids[0].commentId)));
      TreeBuilt(comments, rank, Some(kids[0].commentId));
      assert BuiltNode(comments, head);
      NodesBuilt(comments, rank, kids[1..], parentId);
      var rest := Nodes(comments, rank, kids[1..], parentId);
      assert Nodes(comments, rank, kids, parentId) == [head] + rest;
      assert NodeComments([head] + rest) == [kids[0]] + NodeComments(rest);
    }
  }

  /** The roots are exactly the top-level comments in flat-list order. */
  lemma RootsAreTopLevel(comments: seq<FlatComment>, rank: Option<int> -> nat)
    requires Ranked(comments, rank)
    ensures NodeComments(BuildCommentTree(comments, rank)) == Filter(comments, (c: FlatComment) => c.parentCommentId.None?)
  {
    TreeBuilt(comments, rank, None);
    var p := (c: FlatComment) => c.parentCommentId == None;
    var q := (c: FlatComment) => c.parentCommentId.None?;
    FilterSame(comments, p, q);
  }

  /** Whether comment c appears in the tree under n (n included). */
  predicate InNode(n: Node, c: FlatComment)
    decreases n
  {
    n.comment == c || exists r | r in n.replies :: InNode(r, c)
  }

  /** Below a well-built node every comment is a row whose parent is a row. */
  lemma {:induction false} BelowHasParent(comments: seq<FlatComment>, n: Node, c: FlatComment)
    requires BuiltNode(comments, n) && InNode(n, c) && c != n.comment
    ensures c.parentCommentId.Some?
    ensures exists d :: d in comments && Some(d.commentId) == c.parentCommentId
    decreases n
  {
    var r :| r in n.replies && InNode(r, c);
    var i :| 0 <= i < |n.replies| && n.replies[i] == r;
    assert NodeComments(n.replies)[i] == r.comment;
    ChildrenMembers(comments, Some(n.comment.commentId));
    if c == r.comment {
      assert c.parentCommentId == Some(n.comment.commentId);
    } else {
      BelowHasParent(comments, r, c);
    }
  }

  /** A comment whose parent is not among the rows never appears in the tree. */
  lemma OrphansDropped(comments: seq<FlatComment>, rank: Option<int> -> nat, c: FlatComment)
    requires Ranked(comments, rank)
    requires c.parentCommentId.Some?
    requires forall d :: d in comments ==> Some(d.commentId) != c.parentCommentId
    ensures forall n | n in BuildCommentTree(comments, rank) :: !InNode(n, c)
  {
    TreeBuilt(comments, rank, None);
    ChildrenMembers(comments, None);
    forall n | n in BuildCommentTree(comments, rank)
      ensures !InNode(n, c)
    {
      var i :| 0 <= i < |BuildCommentTree(comments, rank)| && BuildCommentTree(comments, rank)[i] == n;
      assert NodeComments(BuildCommentTree(comments, rank))[i] == n.comment;
      if InNode(n, c) && c != n.comment {
        BelowHasParent(comments, n, c);
      }
    }
  }

  /** `post.tags ? post.tags.split(',') : []`. */
  function TagList(tags: Option<string>): (r: seq<string>)
    ensures tags.None? || tags == Some("") ==> r == []
    ensures tags.Some? && tags.value != "" ==> Join(r, ",") == tags.value
    ensures forall i :: 0 <= i < |r| ==> ',' !in r[i]
  {
    if tags.None? || tags.value == "" then []
    else
      JoinSplit(tags.value, ',');
      Split(tags.value, ',')
  }

  /** Tag names without commas, joined by the database with ',', decode back
      to the same list (unless the joined string is empty). */
  lemma TagsRoundTrip(names: seq<string>)
    requires |names| >= 1
    requires forall i :: 0 <= i < |names| ==> ',' !in names[i]
    requires Join(names, ",") != ""
    ensures TagList(Some(Join(names, ","))) == names
  {
    SplitJoin(names, ',');
  }

  /** A value bound to a '?' placeholder. */
  datatype Param = Text(s: string) | Id(n: int)

  /** The SET clauses of an UPDATE and the values of its placeholders. */
  datatype Update = Update(updates: seq<string>, params: seq<Param>)

  const NoFieldsToUpdate := "No valid fields to update"

  /** The clause builder of updatePostDB: 'title = ?' then 'content = ?' for
      each defined value, then postId for the WHERE clause. */
  method BuildPostUpdate(postId: int, title: Option<string>, content: Option<string>) returns (r: Result<Update, string>)
    ensures r.Err? <==> title.None? && content.None?
    ensures r.Err? ==> r.error == NoFieldsToUpdate
    ensures r.Ok? ==>
      r.value.updates == (if title.Some? then ["title = ?"] else []) + (if content.Some? then ["content = ?"] else [])
    ensures r.Ok? ==>
      r.value.params == (if title.Some? then [Text(title.value)] else []) + (if content.Some? then [Text(content.value)] else [])
                        + [Id(postId)]
    ensures r.Ok? ==> |r.value.params| == |r.value.updates| + 1 && r.value.params[|r.value.updates|] == Id(postId)
    ensures r.Ok? ==> ("title = ?" in r.value.updates <==> title.Some?) && ("content = ?" in r.value.updates <==> content.Some?)
    ensures r.Ok? && title.Some? ==> r.value.updates[0] == "title = ?" && r.value.params[0] == Text(title.value)
    ensures r.Ok? && content.Some? ==>
      r.value.updates[|r.value.updates| - 1] == "content = ?" && r.value.params[|r.value.updates| - 1] == Text(content.value)
  {
    var updates: seq<string> := [];
    var params: seq<Param> := [];
    if title.Some? {
      updates := updates + ["title = ?"];
      params := params + [Text(title.value)];
    }
    if content.Some? {
      updates := updates + ["content = ?"];
      params := params + [Text(content.value)];
    }
    if |updates| == 0 {
      return Err(NoFieldsToUpdate);
    }
    params := params + [Id(postId)];
    r := Ok(Update(updates, params));
  }

  /** A row of forum_tags. */
  datatype TagRow = TagRow(name: string, id: int)

  /** The collation keys of some tag names. `key` is the column's collation:
      two names are equal in SQL (for IN, = and the unique index) exactly when
      their keys are equal. */
  function KeysOf(names: seq<string>, key: string -> string): set<string> {
    set t | t in names :: key(t)
  }

  /** forum_tags under its unique tag_name index: each row is filed under the
      collation key of its name. */
  predicate TagTable(table: map<string, TagRow>, key: string -> string) {
    forall k :: k in table ==> key(table[k].name) == k
  }

  /** SELECT tag_id, tag_name FROM forum_tags WHERE tag_name IN (tags), as the
      Map from stored name to id: the rows whose name equals some tag under
      the collation, which may differ from every tag in case. */
  function SelectExisting(table: map<string, TagRow>, tags: seq<string>, key: string -> string): (m: map<string, int>)
    requires TagTable(table, key)
    ensures forall t :: t in m <==> key(t) in table && table[key(t)].name == t && key(t) in KeysOf(tags, key)
    ensures forall t :: t in m ==> m[t] == table[key(t)].id
  {
    map k | k in table && k in KeysOf(tags, key) :: table[k].name := table[k].id
  }

  lemma KeysOfSnoc(names: seq<string>, t: string, key: string -> string)
    ensures KeysOf(names + [t], key) == KeysOf(names, key) + {key(t)}
  {
    assert forall u :: u in names + [t] <==> u in names || u == t;
  }

  /** The table only grew, by one row per inserted tag, each under a new key
      and with consecutive ids from nextId. */
  ghost predicate RowsAdded(table: map<string, TagRow>, key: string -> string, nextId: int,
                            inserted: seq<string>, table': map<string, TagRow>)
  {
    && TagTable(table', key)
    && (forall k :: k in table ==> k in table' && table'[k] == table[k])
    && table'.Keys == table.Keys + KeysOf(inserted, key)
    && (forall t :: t in inserted ==> key(t) !in table)
    && (forall j, k :: 0 <= j < k < |inserted| ==> key(inserted[j]) != key(inserted[k]))
    && (forall k :: 0 <= k < |inserted| ==> table'[key(inserted[k])] == TagRow(inserted[k], nextId + k))
  }

  /** The name-to-id map holds the selected names and the tags done so far,
      each with the id of the row stored under its key. */
  ghost predicate MapAgrees(done: seq<string>, selected: map<string, int>, key: string -> string,
                            tagMap: map<string, int>, table': map<string, TagRow>)
  {
    && (forall t :: t in tagMap <==> t in selected || t in done)
    && (forall t :: t in tagMap ==> key(t) in table' && tagMap[t] == table'[key(t)].id)
  }

  /** The state of the insert loop after the tags done so far. */
  ghost predicate InsertState(done: seq<string>, selected: map<string, int>, table: map<string, TagRow>,
                              key: string -> string, nextId: int,
                              inserted: seq<string>, tagMap: map<string, int>, table': map<string, TagRow>)
  {
    && RowsAdded(table, key, nextId, inserted, table')
    && KeysOf(done, key) <= table'.Keys
    && (forall t :: t in inserted ==> t in done)
    && MapAgrees(done, selected, key, tagMap, table')
  }

  /** A tag whose key is already stored: the insert fails and the id is read
      back. */
  lemma InsertHit(done: seq<string>, tag: string, selected: map<string, int>, table: map<string, TagRow>,
                  key: string -> string, nextId: int,
                  inserted: seq<string>, tagMap: map<string, int>, table': map<string, TagRow>)
    requires InsertState(done, selected, table, key, nextId, inserted, tagMap, table')
    requires key(tag) in table'
    ensures InsertState(done + [tag], selected, table, key, nextId, inserted, tagMap[tag := table'[key(tag)].id], table')
  {
    KeysOfSnoc(done, tag, key);
  }

  /** A new row for a tag whose key is not stored keeps RowsAdded. */
  lemma RowsAddedMiss(table: map<string, TagRow>, key: string -> string, nextId: int,
                      inserted: seq<string>, table': map<string, TagRow>, tag: string,
                      ins: seq<string>, t2: map<string, TagRow>)
    requires RowsAdded(table, key, nextId, inserted, table')
    requires key(tag) !in table'
    requires ins == inserted + [tag] && t2 == table'[key(tag) := TagRow(tag, nextId + |inserted|)]
    ensures RowsAdded(table, key, nextId, ins, t2)
  {
    KeysOfSnoc(inserted, tag, key);
    forall j, k | 0 <= j < k < |ins| ensures key(ins[j]) != key(ins[k]) {
      if k == |inserted| { assert key(inserted[j]) in table'; }
    }
    forall k | 0 <= k < |ins| ensures t2[key(ins[k])] == TagRow(ins[k], nextId + k) {
      if k < |inserted| { assert key(inserted[k]) in table'; }
    }
  }

  /** A tag whose key is new: it is stored with the next id. */
  lemma InsertMiss(done: seq<string>, tag: string, selected: map<string, int>, table: map<string, TagRow>,
                   key: string -> string, nextId: int,
                   inserted: seq<string>, tagMap: map<string, int>, table': map<string, TagRow>,
                   ins: seq<string>, m2: map<string, int>, t2: map<string, TagRow>)
    requires InsertState(done, selected, table, key, nextId, inserted, tagMap, table')
    requires key(tag) !in table'
    requires ins == inserted + [tag] && m2 == tagMap[tag := nextId + |inserted|]
    requires t2 == table'[key(tag) := TagRow(tag, nextId + |inserted|)]
    ensures InsertState(done + [tag], selected, table, key, nextId, ins, m2, t2)
  {
    KeysOfSnoc(done, tag, key);
    RowsAddedMiss(table, key, nextId, inserted, table', tag, ins, t2);
    assert MapAgrees(done + [tag], selected, key, m2, t2);
  }

  /** The insert loop of createPostDB over tagsToInsert. An INSERT whose name
      is new under the collation gets the database id nextId, nextId + 1, ...;
      one that hits the unique index (ER_DUP_ENTRY: a case variant of a stored
      name, or a name already inserted earlier in the loop) reads back the id
      of the row stored under the same key. */
  method InsertTags(tagsToInsert: seq<string>, selected: map<string, int>, table: map<string, TagRow>,
                    key: string -> string, nextId: int)
    returns (inserted: seq<string>, tagMap: map<string, int>, table': map<string, TagRow>)
    requires TagTable(table, key)
    requires forall t :: t in selected ==> key(t) in table && selected[t] == table[key(t)].id
    ensures InsertState(tagsToInsert, selected, table, key, nextId, inserted, tagMap, table')
  {
    inserted, tagMap, table' := [], selected, table;
    assert KeysOf([], key) == {};
    for i := 0 to |tagsToInsert|
      invariant InsertState(tagsToInsert[..i], selected, table, key, nextId, inserted, tagMap, table')
    {
      var tag := tagsToInsert[i];
      assert tagsToInsert[..i + 1] == tagsToInsert[..i] + [tag];
      if key(tag) in table' {
        InsertHit(tagsToInsert[..i], tag, selected, table, key, nextId, inserted, tagMap, table');
        tagMap := tagMap[tag := table'[key(tag)].id];
      } else {
        var id := nextId + |inserted|;
        var ins, m2, t2 := inserted + [tag], tagMap[tag := id], table'[key(tag) := TagRow(tag, id)];
        InsertMiss(tagsToInsert[..i], tag, selected, table, key, nextId, inserted, tagMap, table', ins, m2, t2);
        inserted, tagMap, table' := ins, m2, t2;
      }
    }
    assert tagsToInsert[..|tagsToInsert|] == tagsToInsert;
  }

  /** The tag work of createPostDB for a non-empty tag list, on the forum_tags
      table: the existing rows are looked up under the collation, a tag whose
      exact name the lookup did not return is inserted (or read back), and one
      (post, tag) mapping row is made per input tag. Returns the tags inserted,
      the final name-to-id map, the new table and the mapping rows. */
  method CreatePostTags(postId: int, tags: seq<string>, table: map<string, TagRow>, key: string -> string, nextId: int)
    returns (inserted: seq<string>, tagMap: map<string, int>, table': map<string, TagRow>, mapping: seq<(int, int)>)
    requires TagTable(table, key)
    ensures RowsAdded(table, key, nextId, inserted, table')
    ensures forall t :: t in inserted ==> t in tags
    ensures table'.Keys == table.Keys + KeysOf(tags, key)
    ensures |mapping| == |tags|
    ensures forall i :: 0 <= i < |tags| ==> tags[i] in tagMap && mapping[i] == (postId, table'[key(tags[i])].id)
  {
    var selected := SelectExisting(table, tags, key);
    var absent := (t: string) => t !in selected;
    var tagsToInsert := Filter(tags, absent);
    forall t ensures t in tagsToInsert <==> t in tags && t !in selected {
      FilterMembers(tags, absent, t);
    }
    inserted, tagMap, table' := InsertTags(tagsToInsert, selected, table, key, nextId);
    TagKeysCovered(tags, tagsToInsert, selected, inserted, table, table', key);
    assert forall i :: 0 <= i < |tags| ==> tags[i] in tagMap && tagMap[tags[i]] == table'[key(tags[i])].id by {
      forall i | 0 <= i < |tags| ensures tags[i] in tagMap && tagMap[tags[i]] == table'[key(tags[i])].id {
        assert tags[i] in selected || tags[i] in tagsToInsert;
      }
    }
    mapping := MappingRows(postId, tags, tagMap);
  }

  /** A tag that differs from a stored name only in what the collation
      ignores (say "covid" against a stored "Covid") inserts nothing and is
      mapped to the stored row's id. */
  method CollationVariantReusesRow(postId: int, tag: string, stored: TagRow, key: string -> string, nextId: int)
    returns (inserted: seq<string>, mapping: seq<(int, int)>)
    requires key(tag) == key(stored.name)
    ensures inserted == []
    ensures mapping == [(postId, stored.id)]
  {
    var table := map[key(stored.name) := stored];
    var tagMap, table';
    inserted, tagMap, table', mapping := CreatePostTags(postId, [tag], table, key, nextId);
    assert tag !in inserted;
    EmptyOrHasFirst(inserted);
    assert mapping[0] == (postId, stored.id);
  }

  /** tags.map(tag => [postId, tagMap.get(tag)]). */
  function MappingRows(postId: int, tags: seq<string>, tagMap: map<string, int>): (r: seq<(int, int)>)
    requires forall i :: 0 <= i < |tags| ==> tags[i] in tagMap
    ensures |r| == |tags| && forall i :: 0 <= i < |tags| ==> r[i] == (postId, tagMap[tags[i]])
  {
    seq(|tags|, i requires 0 <= i < |tags| => (postId, tagMap[tags[i]]))
  }

  /** After the loop every tag's key is in the table: it was either selected
      (so already stored) or inserted. */
  lemma TagKeysCovered(tags: seq<string>, tagsToInsert: seq<string>, selected: map<string, int>, inserted: seq<string>,
                       table: map<string, TagRow>, table': map<string, TagRow>, key: string -> string)
    requires forall t :: t in tagsToInsert <==> t in tags && t !in selected
    requires forall t :: t in selected ==> key(t) in table
    requires table'.Keys == table.Keys + KeysOf(inserted, key)
    requires KeysOf(tagsToInsert, key) <= table'.Keys
    requires forall t :: t in inserted ==> t in tagsToInsert
    ensures table'.Keys == table.Keys + KeysOf(tags, key)
  {
    assert KeysOf(inserted, key) <= KeysOf(tags, key);
    assert KeysOf(tags, key) <= table.Keys + KeysOf(tagsToInsert, key);
  }
}
