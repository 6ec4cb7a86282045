/**
 * validateChatRequest of the chat routes: rejects an empty or over-long
 * message and cleans the history in place before calling next().
 */
module ChatMiddleware {
  import opened Json
  import opened Strings
  import opened Seqs
  import opened Express

  const MessageRequired := "Message is required and cannot be empty"
  const MessageTooLong := "Message exceeds maximum length of 1000 characters"
  const MaxLength := 1000

  /** The part of req.body this middleware reads and writes. */
  class ChatBody {
    var message: Value
    var history: Value

    constructor (message0: Value, history0: Value)
      ensures message == message0 && history == history0
    {
      message := message0;
      history := history0;
    }

    /** validateChatRequest. */
    method Validate() returns (outcome: Outcome)
      modifies this
      ensures outcome in {Next, Thrown, Reject(400, MessageRequired), Reject(400, MessageTooLong)}
      ensures outcome == Reject(400, MessageRequired) <==> IsBlank(old(message))
      ensures outcome == Thrown <==> JsTruthy(old(message)) && !old(message).Str?
      ensures outcome == Reject(400, MessageTooLong) <==>
        old(message).Str? && !IsBlank(old(message)) && |JsTrim(old(message).s)| > MaxLength
      ensures outcome.Reject? || outcome == Thrown ==> history == old(history)
      ensures outcome == Reject(400, MessageTooLong) ==> message == Str(JsTrim(old(message).s))
      ensures outcome != Reject(400, MessageTooLong) && outcome != Next ==> message == old(message)
      ensures outcome == Next ==> message == Str(JsTrim(old(message).s)) && |message.s| <= MaxLength
      ensures outcome == Next ==> history == CleanHistory(old(history))
    {
      if !JsTruthy(message) {
        return Reject(400, MessageRequired);
      }
      if !message.Str? {
        return Thrown;
      }
      if JsTrim(message.s) == "" {
        return Reject(400, MessageRequired);
      }
      message := Str(JsTrim(message.s));
      if |message.s| > MaxLength {
        return Reject(400, MessageTooLong);
      }
      if JsTruthy(history) && !history.Arr? {
        history := Arr([]);
      }
      if JsTruthy(history) {
        history := Arr(Filter(history.items, ValidEntry));
      }
      outcome := Next;
    }
  }

  /** `!message || message.trim() === ''` on a string, or a falsy value. */
  predicate IsBlank(message: Value) {
    !JsTruthy(message) || (message.Str? && JsTrim(message.s) == "")
  }

  /** An entry of the history kept by the filter: an object with a string
      content and a string role. */
  predicate ValidEntry(v: Value) {
    v.Obj? && Get(v.fields, "content").Str? && Get(v.fields, "role").Str?
  }

  /** The history after the middleware: a falsy one is left alone, a truthy
      non-array becomes [], and an array keeps its valid entries in order. */
  function CleanHistory(h: Value): Value {
    if !JsTruthy(h) then h
    else if h.Arr? then Arr(Filter(h.items, ValidEntry))
    else Arr([])
  }

  /** A cleaned history holds exactly the valid entries of the original, and
      cleaning it again changes nothing. */
  lemma CleanHistoryKeepsValid(h: Value, v: Value)
    requires h.Arr?
    ensures v in CleanHistory(h).items <==> v in h.items && ValidEntry(v)
    ensures CleanHistory(CleanHistory(h)) == CleanHistory(h)
  {
    FilterMembers(h.items, ValidEntry, v);
    var c := Filter(h.items, ValidEntry);
    forall x | x in c ensures ValidEntry(x) {
      FilterMembers(h.items, ValidEntry, x);
    }
    FilterAll(c, ValidEntry);
  }

  /** Cleaning is idempotent on every history. */
  lemma CleanHistoryIdempotent(h: Value)
    ensures CleanHistory(CleanHistory(h)) == CleanHistory(h)
  {
    if h.Arr? {
      CleanHistoryKeepsValid(h, Null);
    } else if JsTruthy(h) {
      assert Filter<Value>([], ValidEntry) == [];
    }
  }

  /** A request that passed is passed again and left unchanged. */
  method ValidateTwice(body: ChatBody) returns (first: Outcome, second: Outcome)
    modifies body
    ensures first == Next ==> second == Next
    ensures first == Next ==> old(body.message).Str? && body.message == Str(JsTrim(old(body.message).s))
    ensures first == Next ==> body.history == CleanHistory(old(body.history))
  {
    first := body.Validate();
    if first == Next {
      ghost var h := body.history;
      ghost var m := body.message.s;
      assert JsTrim(m) == m by {
        TrimIdempotent(old(body.message).s, IsJsSpace);
      }
      CleanHistoryIdempotent(old(body.history));
      assert body.message == Str(m) && m != "" && JsTruthy(body.message);
      assert !IsBlank(body.message) && |JsTrim(m)| <= MaxLength;
      second := body.Validate();
      assert second != Thrown && second != Reject(400, MessageRequired) && second != Reject(400, MessageTooLong);
      assert body.history == CleanHistory(h);
    } else {
      second := first;
    }
  }
}
