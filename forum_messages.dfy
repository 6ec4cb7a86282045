/**
 * buildDetailedErrors: the validation messages of a failed forum request,
 * one per line. String() of a message that is a number, an array or an
 * object is a parameter.
 */
module ForumMessages {
  import opened Wrappers
  import opened Json
  import opened Strings

  /** `v?.k`: undefined on null and undefined, and on values that are not
      objects. */
  function Chain(v: Value, k: string): Value {
    if v.Obj? then Get(v.fields, k) else Undefined
  }

  predicate Nullish(v: Value) {
    v == Undefined || v == Null
  }

  /** How Array.prototype.join writes one element: null and undefined as
      the empty string. */
  function JoinText(v: Value, show: Value -> string): string {
    match v
    case Str(s) => s
    case Undefined => ""
    case Null => ""
    case Bool(b) => if b then "true" else "false"
    case _ => show(v)
  }

  /** `errors.map(err => err.message)`, as the join writes each message. */
  function MessageTexts(errors: seq<Value>, show: Value -> string): (r: seq<string>)
    requires forall i :: 0 <= i < |errors| ==> !Nullish(errors[i])
    ensures |r| == |errors|
    ensures forall i :: 0 <= i < |errors| ==> r[i] == JoinText(Chain(errors[i], "message"), show)
  {
    seq(|errors|, i requires 0 <= i < |errors| => JoinText(Chain(errors[i], "message"), show))
  }

  /** buildDetailedErrors. None when the map reads `.message` of a null or
      undefined entry, which throws. */
  function BuildDetailedErrors(data: Value, show: Value -> string): (r: Option<string>)
    ensures !JsTruthy(Chain(data, "errors")) || !Chain(data, "errors").Arr? ==> r == Some("")
    ensures Chain(data, "errors").Arr? ==>
      (r.None? <==> exists i :: 0 <= i < |Chain(data, "errors").items| && Nullish(Chain(data, "errors").items[i]))
    ensures r.Some? && Chain(data, "errors").Arr? ==> r.value == Join(MessageTexts(Chain(data, "errors").items, show), "\n")
  {
    var errors := Chain(data, "errors");
    if !JsTruthy(errors) then Some("")
    else if !errors.Arr? then Some("")
    else if exists i :: 0 <= i < |errors.items| && Nullish(errors.items[i]) then None
    else Some(Join(MessageTexts(errors.items, show), "\n"))
  }

  /** For n string messages without line breaks the text has n - 1 line
      breaks, and splitting it at them gives the messages back in order. */
  lemma {:induction false} OneLinePerMessage(data: Value, show: Value -> string)
    requires Chain(data, "errors").Arr? && |Chain(data, "errors").items| >= 1
    requires forall i :: 0 <= i < |Chain(data, "errors").items| ==>
      Chain(Chain(data, "errors").items[i], "message").Str? &&
      '\n' !in Chain(Chain(data, "errors").items[i], "message").s
    ensures BuildDetailedErrors(data, show).Some?
    ensures var text := BuildDetailedErrors(data, show).value;
      CountChar(text, '\n') == |Chain(data, "errors").items| - 1 &&
      Split(text, '\n') == MessageTexts(Chain(data, "errors").items, show)
  {
    var errors := Chain(data, "errors").items;
    forall i | 0 <= i < |errors| ensures !Nullish(errors[i]) {
      assert Chain(errors[i], "message").Str?;
    }
    var texts := MessageTexts(errors, show);
    JoinSeparatorCount(texts, '\n');
    SplitJoin(texts, '\n');
  }

  /** Nothing but the message of each entry is read: two error lists whose
      entries have the same messages give the same text. */
  lemma OnlyMessagesRead(a: seq<Value>, b: seq<Value>, show: Value -> string)
    requires |a| == |b|
    requires forall i :: 0 <= i < |a| ==> !Nullish(a[i]) && !Nullish(b[i]) && Chain(a[i], "message") == Chain(b[i], "message")
    ensures BuildDetailedErrors(Obj(map["errors" := Arr(a)]), show) == BuildDetailedErrors(Obj(map["errors" := Arr(b)]), show)
  {
    assert MessageTexts(a, show) == MessageTexts(b, show);
  }
}
