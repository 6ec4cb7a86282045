/**
 * validateChatRequest of the chatbot routes: the variant that cuts an
 * over-long message to its first 1000 characters instead of rejecting it,
 * and keeps the chatHistory entries that carry an isUser flag.
 */
module ChatMiddlewareTruncate {
  import opened Json
  import opened Strings
  import opened Seqs
  import opened Express

  const MessageRequired := "Message is required and cannot be empty"
  const MaxLength := 1000

  /** The part of req.body this middleware reads and writes. */
  class ChatBody {
    var message: Value
    var chatHistory: Value

    constructor (message0: Value, chatHistory0: Value)
      ensures message == message0 && chatHistory == chatHistory0
    {
      message := message0;
      chatHistory := chatHistory0;
    }

    /** validateChatRequest. */
    method Validate() returns (outcome: Outcome)
      modifies this
      ensures outcome in {Next, Thrown, Reject(400, MessageRequired)}
      ensures outcome == Reject(400, MessageRequired) <==> IsBlank(old(message))
      ensures outcome == Thrown <==> JsTruthy(old(message)) && !old(message).Str?
      ensures outcome != Next ==> message == old(message) && chatHistory == old(chatHistory)
      ensures outcome == Next ==> message == Str(Truncated(JsTrim(old(message).s)))
      ensures outcome == Next ==> chatHistory == CleanHistory(old(chatHistory))
    {
      if !JsTruthy(message) {
        return Reject(400, MessageRequired);
      }
      if !message.Str? {
        return Thrown;
      }
      if JsTrim(message.s) == "" {
        return Reject(400, MessageRequired);
      }
      message := Str(JsTrim(message.s));
      if |message.s| > MaxLength {
        message := Str(message.s[..MaxLength]);
      }
      if JsTruthy(chatHistory) && !chatHistory.Arr? {
        chatHistory := Arr([]);
      }
      if JsTruthy(chatHistory) {
        chatHistory := Arr(Filter(chatHistory.items, ValidEntry));
      }
      outcome := Next;
    }
  }

  predicate IsBlank(message: Value) {
    !JsTruthy(message) || (message.Str? && JsTrim(message.s) == "")
  }

  /** `substring(0, 1000)` applied when the text is longer than 1000. */
  function Truncated(s: string): (r: string)
    ensures |r| <= MaxLength
    ensures |s| <= MaxLength ==> r == s
    ensures |s| > MaxLength ==> |r| == MaxLength
    ensures r == s[..|r|]
  {
    if |s| > MaxLength then s[..MaxLength] else s
  }

  /** An entry kept by the filter: an object with a string content and a
      boolean isUser. */
  predicate ValidEntry(v: Value) {
    v.Obj? && Get(v.fields, "content").Str? && Get(v.fields, "isUser").Bool?
  }

  function CleanHistory(h: Value): Value {
    if !JsTruthy(h) then h
    else if h.Arr? then Arr(Filter(h.items, ValidEntry))
    else Arr([])
  }

  /** A cleaned chatHistory holds exactly the valid entries of the original. */
  lemma CleanHistoryKeepsValid(h: Value, v: Value)
    requires h.Arr?
    ensures v in CleanHistory(h).items <==> v in h.items && ValidEntry(v)
  {
    FilterMembers(h.items, ValidEntry, v);
  }

  /** A message reaching next() is never empty and never starts with white
      space; unlike the rejecting variant, it may end with white space when
      the cut falls just after a space. */
  lemma PassedMessageShape(s: string)
    requires JsTrim(s) != ""
    ensures var r := Truncated(JsTrim(s)); r != "" && !IsJsSpace(r[0])
  {
    TrimEndsNonSpace(s, IsJsSpace);
  }

  /** The cut can leave a trailing space: 999 characters that do not start
      with white space, then a space and one letter, give a message that a
      second pass would trim further. */
  lemma TruncationCanEndInSpace(p: string)
    requires |p| == MaxLength - 1 && !IsJsSpace(p[0])
    ensures var s := p + [' ', 'b'];
      JsTrim(s) == s && Truncated(s) == p + [' '] && JsTrim(Truncated(s)) != Truncated(s)
  {
    var s := p + [' ', 'b'];
    assert s[0] == p[0] && s[|s| - 1] == 'b';
    TrimOfTrimmed(s, IsJsSpace);
    var t := Truncated(s);
    assert t == p + [' '];
    TrimEndsNonSpace(t, IsJsSpace);
    assert IsJsSpace(t[|t| - 1]);
  }
}
