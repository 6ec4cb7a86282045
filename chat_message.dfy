/**
 * Chat messages as stored and as shown: the frontend form of a stored
 * message, and the bulk insert of a conversation's messages. uuid's fresh
 * ids are a parameter.
 */
module ChatMessage {
  import opened Wrappers
  import opened Json

  /** A chat_messages row. A null image_url is None. */
  datatype StoredMessage = StoredMessage(senderType: string, content: string, imageUrl: Option<string>, createdAt: int)

  /** The frontend form; an undefined image_url is None. */
  datatype FrontendMessage = FrontendMessage(role: string, content: string, imageUrl: Option<string>, timestamp: int)

  const InvalidFormat := "Invalid messages format"
  const AddFailed := "Failed to add multiple messages"
  const RowPlaceholders := "(?, ?, ?, ?, ?)"

  /** One element of formatMessagesForFrontend's map. */
  function FormatMessage(m: StoredMessage): (f: FrontendMessage)
    ensures f.role == "user" <==> m.senderType == "user"
    ensures f.role != "user" ==> f.role == "assistant"
    ensures f.content == m.content && f.timestamp == m.createdAt
    ensures f.imageUrl.None? <==> m.imageUrl.None? || m.imageUrl == Some("")
    ensures f.imageUrl.Some? ==> f.imageUrl == m.imageUrl
  {
    FrontendMessage(
      if m.senderType == "user" then "user" else "assistant",
      m.content,
      if m.imageUrl.Some? && m.imageUrl.value != "" then m.imageUrl else None,
      m.createdAt)
  }

  /** formatMessagesForFrontend: the messages in the order the query returns them. */
  function FormatMessages(messages: seq<StoredMessage>): (r: seq<FrontendMessage>)
    ensures |r| == |messages|
    ensures forall i :: 0 <= i < |messages| ==> r[i] == FormatMessage(messages[i])
  {
    seq(|messages|, i requires 0 <= i < |messages| => FormatMessage(messages[i]))
  }

  /** `message.role` / `message.content`: None when the element is null or
      undefined (a TypeError), undefined for a non-object. */
  function Property(v: Value, k: string): Option<Value> {
    match v
    case Undefined => None
    case Null => None
    case Obj(fs) => Some(Get(fs, k))
    case _ => Some(Undefined)
  }

  predicate Readable(v: Value) {
    v != Undefined && v != Null
  }

  /** The sender_type stored for a role. */
  function SenderType(role: Value): string {
    if role == Str("user") then "user" else "bot"
  }

  /** The five parameters of one row. */
  function RowParams(id: string, conversationId: Value, userId: Value, message: Value): seq<Value>
    requires Readable(message)
  {
    var role := Property(message, "role").value;
    [Str(id), conversationId, Str(SenderType(role)), if role == Str("user") then userId else Null,
     Property(message, "content").value]
  }

  /** The parameter list of the first n messages, in message order. */
  function ParamsOf(messages: seq<Value>, ids: seq<string>, conversationId: Value, userId: Value): (r: seq<Value>)
    requires |ids| == |messages|
    requires forall i :: 0 <= i < |messages| ==> Readable(messages[i])
    ensures |r| == 5 * |messages|
  {
    if messages == [] then []
    else
      var n := |messages| - 1;
      ParamsOf(messages[..n], ids[..n], conversationId, userId) + RowParams(ids[n], conversationId, userId, messages[n])
  }

  /** addMultipleMessages' argument check. */
  predicate ValidMessages(messages: Value) {
    messages.Arr? && |messages.items| > 0
  }

  /** addMultipleMessages: one placeholder group and five parameters per
      message. Every failure, the format check included, is rethrown as one
      generic error. */
  method AddMultipleMessages(conversationId: Value, userId: Value, messages: Value, ids: seq<string>)
    returns (r: Result<(seq<string>, seq<Value>), string>)
    requires messages.Arr? ==> |ids| == |messages.items|
    ensures r.Err? ==> r.error == AddFailed
    ensures r.Ok? <==> ValidMessages(messages) && forall i :: 0 <= i < |messages.items| ==> Readable(messages.items[i])
    ensures r.Ok? ==> r.value.0 == seq(|messages.items|, _ => RowPlaceholders)
    ensures r.Ok? ==> r.value.1 == ParamsOf(messages.items, ids, conversationId, userId)
  {
    if !ValidMessages(messages) {
      return Err(AddFailed);
    }
    var items := messages.items;
    var queries: seq<string> := [];
    var params: seq<Value> := [];
    for i := 0 to |items|
      invariant forall j :: 0 <= j < i ==> Readable(items[j])
      invariant queries == seq(i, _ => RowPlaceholders)
      invariant params == ParamsOf(items[..i], ids[..i], conversationId, userId)
    {
      if !Readable(items[i]) {
        return Err(AddFailed);
      }
      assert items[..i + 1][..i] == items[..i];
      assert ids[..i + 1][..i] == ids[..i];
      queries := queries + [RowPlaceholders];
      params := params + RowParams(ids[i], conversationId, userId, items[i]);
    }
    assert items[..|items|] == items && ids[..|ids|] == ids;
    r := Ok((queries, params));
  }

  /** Message i's parameters are the i-th group of five. */
  lemma {:induction false} ParamsGroup(messages: seq<Value>, ids: seq<string>, conversationId: Value, userId: Value, i: nat)
    requires |ids| == |messages|
    requires forall j :: 0 <= j < |messages| ==> Readable(messages[j])
    requires i < |messages|
    ensures ParamsOf(messages, ids, conversationId, userId)[5 * i..5 * i + 5] == RowParams(ids[i], conversationId, userId, messages[i])
  {
    var n := |messages| - 1;
    var init := ParamsOf(messages[..n], ids[..n], conversationId, userId);
    if i < n {
      ParamsGroup(messages[..n], ids[..n], conversationId, userId, i);
      assert ParamsOf(messages, ids, conversationId, userId)[5 * i..5 * i + 5] == init[5 * i..5 * i + 5];
    } else {
      assert ParamsOf(messages, ids, conversationId, userId)[5 * i..5 * i + 5] == RowParams(ids[n], conversationId, userId, messages[n]);
    }
  }

  /** A message stored under role r and formatted back shows role "user"
      exactly when r was "user", and "assistant" otherwise: the frontend
      never sees "bot". */
  lemma RoleRoundTrip(role: Value, content: string, createdAt: int)
    ensures var shown := FormatMessage(StoredMessage(SenderType(role), content, None, createdAt)).role;
      (shown == "user" <==> role == Str("user")) && (shown == "user" || shown == "assistant")
  {
  }

  /** The user id is stored only for user messages; other rows get null. */
  lemma SenderIdOnlyForUser(id: string, conversationId: Value, userId: Value, message: Value)
    requires Readable(message)
    ensures RowParams(id, conversationId, userId, message)[3] == (if Property(message, "role") == Some(Str("user")) then userId else Null)
    ensures RowParams(id, conversationId, userId, message)[4] == Property(message, "content").value
  {
  }
}
