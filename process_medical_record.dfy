/**
 * The structuring stage of the medical-record pipeline: a length gate on the
 * extracted text, then the hardening of the language model's free-form reply
 * into a record dict (JSON candidate extraction, parsing, and the repair pass
 * that fills missing fields, re-encodes medications and coerces record_type).
 *
 * The chat call, json.loads and json.dumps are parameters: `chat` maps the
 * extracted text to the reply content or to the text of the exception it
 * raised, `loads` maps a candidate to a value or to a decode error, `dumps`
 * renders a value, and `describe` gives the text of the TypeError Python
 * raises when the parsed value is not a dict.
 */
module ProcessMedicalRecord {
  import opened Wrappers
  import opened Strings
  import opened Json

  const MinExtractedLength := 10

  const RequiredFields: seq<string> :=
    ["record_date", "diagnosis", "symptoms", "treatments", "medications",
     "doctor_name", "hospital", "notes", "record_type"]

  const ValidRecordTypes: seq<string> := ["checkup", "hospitalization", "surgery", "other"]

  const InsufficientTextError := "Không thể trích xuất đủ dữ liệu từ file. Vui lòng thử lại với file khác."
  const NoCandidateError := "Không thể phân tích kết quả từ chatbot"
  const DecodeError := "Lỗi định dạng phản hồi từ chatbot"
  const ChatbotErrorPrefix := "Lỗi xử lý chatbot: "
  const ExtractionErrorPrefix := "Lỗi xử lý: "

  /** The dict returned to the caller: {"success": True, "data": ...} or
      {"success": False, "error": ..., ["raw_response": ...]}. */
  datatype Envelope =
    | Success(data: Fields)
    | Failure(error: string, rawResponse: Option<string>)

  // ---------------------------------------------------------------------
  // JSON candidate extraction

  /** First strategy applies: a "```json" fence followed later by "```". */
  predicate HasJsonFence(t: string) {
    Contains(t, "```json") && Contains(SplitAfter(t, "```json"), "```")
  }

  /** Second strategy applies: at least two "```" fences. */
  predicate HasFencePair(t: string) {
    Contains(t, "```") && Contains(SplitAfter(t, "```"), "```")
  }

  /** The JSON candidate found in the stripped reply t, by the first strategy
      that applies; None when none does. */
  function ExtractCandidate(t: string): (r: Option<string>)
    ensures HasJsonFence(t) || HasFencePair(t) ==> r.Some?
    ensures r.None? ==> !exists i, j :: 0 <= i < j < |t| && t[i] == '{' && t[j] == '}'
  {
    if HasJsonFence(t) then
      Some(PyStrip(SplitBefore(SplitAfter(t, "```json"), "```")))
    else if HasFencePair(t) then
      Some(PyStrip(SplitBefore(SplitAfter(t, "```"), "```")))
    else
      var start := FindChar(t, '{');
      var end := RFindChar(t, '}');
      if start != -1 && end != -1 && end > start then Some(t[start..end + 1]) else None
  }

  /** The candidate of a fenced strategy: the stripped text between the first
      occurrence of `open` and the next "```"; it never contains a fence. */
  lemma FencedText(t: string, open: string)
    requires open != "" && Contains(t, open) && Contains(SplitAfter(t, open), "```")
    ensures var c := PyStrip(SplitBefore(SplitAfter(t, open), "```"));
      !Contains(c, "```")
      && exists i: nat, j: nat :: (Delimited(t, open, "```", i, j) && c == PyStrip(t[i + |open|..j]))
  {
    SplitAfterBefore(t, open, "```");
    var b := SplitBefore(SplitAfter(t, open), "```");
    TrimNotContains(b, "```", IsPySpace);
  }

  /** With a "```json" fence closed later, the candidate is the stripped text
      between the first "```json" and the next "```", and holds no fence. */
  lemma JsonFenceCandidate(t: string)
    requires HasJsonFence(t)
    ensures ExtractCandidate(t).Some?
    ensures !Contains(ExtractCandidate(t).value, "```")
    ensures exists i: nat, j: nat :: (Delimited(t, "```json", "```", i, j)
      && ExtractCandidate(t).value == PyStrip(t[i + 7..j]))
  {
    FencedText(t, "```json");
  }

  /** Otherwise, with two fences, the candidate is the stripped text between
      the first two; a language word after the opening fence stays in it. */
  lemma FencePairCandidate(t: string)
    requires !HasJsonFence(t) && HasFencePair(t)
    ensures ExtractCandidate(t).Some?
    ensures !Contains(ExtractCandidate(t).value, "```")
    ensures exists i: nat, j: nat :: (Delimited(t, "```", "```", i, j)
      && ExtractCandidate(t).value == PyStrip(t[i + 3..j]))
  {
    FencedText(t, "```");
  }

  /** t[i] is the first '{' of t and t[j] its last '}', in that order. */
  predicate OuterBraces(t: string, i: int, j: int) {
    0 <= i < j < |t| && t[i] == '{' && t[j] == '}'
    && (forall k :: 0 <= k < i ==> t[k] != '{') && (forall k :: j < k < |t| ==> t[k] != '}')
  }

  /** Without fences the candidate is the inclusive span from the first '{' to
      the last '}'; it exists exactly when such a pair exists in that order. */
  lemma BraceCandidate(t: string)
    requires !HasJsonFence(t) && !HasFencePair(t)
    ensures ExtractCandidate(t).Some? <==>
      exists i, j :: 0 <= i < j < |t| && t[i] == '{' && t[j] == '}'
    ensures ExtractCandidate(t).Some? ==>
      exists i, j :: OuterBraces(t, i, j) && ExtractCandidate(t).value == t[i..j + 1]
    ensures ExtractCandidate(t).Some? ==>
      var c := ExtractCandidate(t).value; |c| >= 2 && c[0] == '{' && c[|c| - 1] == '}'
  {
    var start := FindChar(t, '{');
    var end := RFindChar(t, '}');
    if exists i, j :: 0 <= i < j < |t| && t[i] == '{' && t[j] == '}' {
      var i, j :| 0 <= i < j < |t| && t[i] == '{' && t[j] == '}';
      assert t[i] in t && t[j] in t;
      assert start != -1 && end != -1;
      assert start <= i && j <= end;
      assert OuterBraces(t, start, end);
    }
  }

  // ---------------------------------------------------------------------
  // Repair pass

  /** The dict after `for field in keys: if field not in d: d[field] = ""`. */
  function FillMissing(fs: Fields, keys: seq<string>): (r: Fields)
    ensures forall k :: k in r <==> k in fs || k in keys
    ensures forall k :: k in fs ==> r[k] == fs[k]
    ensures forall k :: k in r && k !in fs ==> r[k] == Str("")
  {
    if keys == [] then fs
    else
      var d := FillMissing(fs, keys[..|keys| - 1]);
      var k := keys[|keys| - 1];
      assert forall x :: x in keys <==> x in keys[..|keys| - 1] || x == k;
      if k in d then d else d[k := Str("")]
  }

  /** medications becomes its JSON text exactly when it is a non-empty list. */
  function EncodeMedications(d: Fields, dumps: Value -> string): Fields {
    var meds := Get(d, "medications");
    if meds.Arr? && PyTruthy(meds) then d["medications" := Str(dumps(meds))] else d
  }

  /** record_type becomes "other" unless it is one of the four valid strings. */
  function CoerceRecordType(d: Fields): Fields {
    var rt := Get(d, "record_type");
    if rt.Str? && rt.s in ValidRecordTypes then d else d["record_type" := Str("other")]
  }

  /** The whole repair pass applied to the parsed dict. */
  function Repair(fs: Fields, dumps: Value -> string): (r: Fields)
    ensures forall k :: k in RequiredFields ==> k in r
    ensures "record_type" in r && r["record_type"].Str? && r["record_type"].s in ValidRecordTypes
  {
    assert "medications" in RequiredFields && "record_type" in RequiredFields;
    CoerceRecordType(EncodeMedications(FillMissing(fs, RequiredFields), dumps))
  }

  /** After repair the keys are exactly the model's keys plus the required
      fields. */
  lemma RepairKeys(fs: Fields, dumps: Value -> string)
    ensures forall k :: k in Repair(fs, dumps) <==> k in fs || k in RequiredFields
  {
    assert "medications" in RequiredFields && "record_type" in RequiredFields;
  }

  /** Keys other than medications and record_type keep the model's value, and
      a required field the model left out is "". */
  lemma RepairKeepsOtherFields(fs: Fields, dumps: Value -> string, k: string)
    requires k != "medications" && k != "record_type"
    requires k in fs || k in RequiredFields
    ensures k in Repair(fs, dumps)
    ensures Repair(fs, dumps)[k] == if k in fs then fs[k] else Str("")
  {
  }

  /** medications is re-encoded only when it is a non-empty list; otherwise it
      is the model's value, or "" when the model gave none. */
  lemma RepairMedications(fs: Fields, dumps: Value -> string)
    ensures "medications" in Repair(fs, dumps)
    ensures Repair(fs, dumps)["medications"] ==
      if "medications" !in fs then Str("")
      else if fs["medications"].Arr? && |fs["medications"].items| > 0 then Str(dumps(fs["medications"]))
      else fs["medications"]
  {
    assert "medications" in RequiredFields;
  }

  /** record_type always ends up as one of the four valid values: the model's
      value when it already was one, "other" in every other case (including
      the "" default). */
  lemma RepairRecordType(fs: Fields, dumps: Value -> string)
    ensures "record_type" in Repair(fs, dumps)
    ensures var rt := Repair(fs, dumps)["record_type"]; rt.Str? && rt.s in ValidRecordTypes
    ensures Repair(fs, dumps)["record_type"] ==
      if "record_type" in fs && fs["record_type"].Str? && fs["record_type"].s in ValidRecordTypes
      then fs["record_type"] else Str("other")
  {
    assert "record_type" in RequiredFields;
  }

  // ---------------------------------------------------------------------
  // process_with_chatbot and process_medical_record

  /** What process_with_chatbot returns for a given chat outcome. */
  function ChatbotOutcome(reply: Result<string, string>, loads: string -> Result<Value, string>,
                          dumps: Value -> string, describe: Value -> string): (r: Envelope)
    ensures reply.Err? ==> r == Failure(ChatbotErrorPrefix + reply.error, None)
    ensures r.Success? ==>
      reply.Ok? && ExtractCandidate(PyStrip(reply.value)).Some? &&
      loads(ExtractCandidate(PyStrip(reply.value)).value).Ok? &&
      loads(ExtractCandidate(PyStrip(reply.value)).value).value.Obj? &&
      r.data == Repair(loads(ExtractCandidate(PyStrip(reply.value)).value).value.fields, dumps)
    ensures reply.Ok? ==>
      var t := PyStrip(reply.value);
      var c := ExtractCandidate(t);
      && (c.None? || c.value == "" ==> r == Failure(NoCandidateError, Some(t)))
      && (c.Some? && c.value != "" && loads(c.value).Err? ==> r == Failure(DecodeError, Some(t)))
      && (c.Some? && c.value != "" && loads(c.value).Ok? && loads(c.value).value.Obj? ==>
            r == Success(Repair(loads(c.value).value.fields, dumps)))
      && (c.Some? && c.value != "" && loads(c.value).Ok? && !loads(c.value).value.Obj? ==>
            r == Failure(ChatbotErrorPrefix + describe(loads(c.value).value), None))
  {
    match reply
    case Err(e) => Failure(ChatbotErrorPrefix + e, None)
    case Ok(content) =>
      var t := PyStrip(content);
      var c := ExtractCandidate(t);
      if c.None? || c.value == "" then Failure(NoCandidateError, Some(t))
      else
        match loads(c.value)
        case Err(_) => Failure(DecodeError, Some(t))
        case Ok(v) => if v.Obj? then Success(Repair(v.fields, dumps)) else Failure(ChatbotErrorPrefix + describe(v), None)
  }

  /** Every success carries all required fields and a valid record_type; every
      failure that reports a raw response reports the stripped reply, and only
      for a missing candidate or a decode error. */
  lemma OutcomeEnvelopes(reply: Result<string, string>, loads: string -> Result<Value, string>,
                         dumps: Value -> string, describe: Value -> string)
    ensures var r := ChatbotOutcome(reply, loads, dumps, describe);
      r.Success? ==>
        (forall k :: k in RequiredFields ==> k in r.data)
        && "record_type" in r.data && r.data["record_type"].Str? && r.data["record_type"].s in ValidRecordTypes
    ensures var r := ChatbotOutcome(reply, loads, dumps, describe);
      r.Failure? && r.rawResponse.Some? ==>
        reply.Ok? && r.rawResponse.value == PyStrip(reply.value)
        && (r.error == NoCandidateError || r.error == DecodeError)
    ensures reply.Ok? && (ExtractCandidate(PyStrip(reply.value)).None? || ExtractCandidate(PyStrip(reply.value)) == Some("")) ==>
      ChatbotOutcome(reply, loads, dumps, describe) == Failure(NoCandidateError, Some(PyStrip(reply.value)))
    ensures var r := ChatbotOutcome(reply, loads, dumps, describe);
      r.Success? <==>
        reply.Ok? && ExtractCandidate(PyStrip(reply.value)).Some? && ExtractCandidate(PyStrip(reply.value)).value != "" &&
        loads(ExtractCandidate(PyStrip(reply.value)).value).Ok? &&
        loads(ExtractCandidate(PyStrip(reply.value)).value).value.Obj?
    ensures var r := ChatbotOutcome(reply, loads, dumps, describe);
      r.Failure? && r.rawResponse.None? ==> ChatbotErrorPrefix <= r.error
  {
    var r := ChatbotOutcome(reply, loads, dumps, describe);
    if r.Success? {
      var v := loads(ExtractCandidate(PyStrip(reply.value)).value).value;
      RepairKeys(v.fields, dumps);
      RepairRecordType(v.fields, dumps);
    }
  }

  /** A dict with the keys of fs plus keys, agreeing with fs on its keys and
      holding "" elsewhere, is the result of FillMissing. */
  lemma FillMissingUnique(fs: Fields, keys: seq<string>, d: Fields)
    requires forall k :: k in d <==> k in fs || k in keys
    requires forall k :: k in fs ==> d[k] == fs[k]
    requires forall k :: k in d && k !in fs ==> d[k] == Str("")
    ensures d == FillMissing(fs, keys)
  {
    var f := FillMissing(fs, keys);
    assert d.Keys == f.Keys;
  }

  /** The repair pass of process_with_chatbot, updating the parsed dict. */
  method RepairInPlace(fields: Fields, dumps: Value -> string) returns (recordData: Fields)
    ensures recordData == Repair(fields, dumps)
  {
    recordData := fields;
    for i := 0 to |RequiredFields|
      invariant forall k :: k in recordData <==> k in fields || k in RequiredFields[..i]
      invariant forall k :: k in fields ==> recordData[k] == fields[k]
      invariant forall k :: k in recordData && k !in fields ==> recordData[k] == Str("")
    {
      assert forall k :: k in RequiredFields[..i + 1] <==> k in RequiredFields[..i] || k == RequiredFields[i];
      if RequiredFields[i] !in recordData {
        recordData := recordData[RequiredFields[i] := Str("")];
      }
    }
    assert RequiredFields[..|RequiredFields|] == RequiredFields;
    FillMissingUnique(fields, RequiredFields, recordData);
    ghost var filled := recordData;
    var meds := Get(recordData, "medications");
    if PyTruthy(meds) && meds.Arr? {
      recordData := recordData["medications" := Str(dumps(meds))];
    }
    assert recordData == EncodeMedications(filled, dumps);
    ghost var encoded := recordData;
    var recordType := Get(recordData, "record_type");
    if !(recordType.Str? && recordType.s in ValidRecordTypes) {
      recordData := recordData["record_type" := Str("other")];
    }
    assert recordData == CoerceRecordType(encoded);
  }

  /** process_with_chatbot: the reply is stripped, a candidate extracted and
      parsed, and the parsed dict repaired in place. */
  method ProcessWithChatbot(text: string, chat: string -> Result<string, string>,
                            loads: string -> Result<Value, string>, dumps: Value -> string,
                            describe: Value -> string)
    returns (r: Envelope)
    ensures r == ChatbotOutcome(chat(text), loads, dumps, describe)
  {
    var reply := chat(text);
    if reply.Err? {
      return Failure(ChatbotErrorPrefix + reply.error, None);
    }
    var responseText := PyStrip(reply.value);
    var jsonText := ExtractCandidate(responseText);
    if jsonText.None? || jsonText.value == "" {
      return Failure(NoCandidateError, Some(responseText));
    }
    var parsed := loads(jsonText.value);
    if parsed.Err? {
      return Failure(DecodeError, Some(responseText));
    }
    if !parsed.value.Obj? {
      return Failure(ChatbotErrorPrefix + describe(parsed.value), None);
    }
    var recordData := RepairInPlace(parsed.value.fields, dumps);
    return Success(recordData);
  }

  /** process_medical_record: an extraction failure and a too-short text end
      the run before the chat model is consulted (the result then does not
      depend on `chat`); otherwise the chatbot stage decides. */
  method ProcessMedicalRecord(extracted: Result<string, string>, chat: string -> Result<string, string>,
                              loads: string -> Result<Value, string>, dumps: Value -> string,
                              describe: Value -> string)
    returns (r: Envelope)
    ensures extracted.Err? ==> r == Failure(ExtractionErrorPrefix + extracted.error, None)
    ensures extracted.Ok? && |PyStrip(extracted.value)| < MinExtractedLength ==>
      r == Failure(InsufficientTextError, None)
    ensures extracted.Ok? && |PyStrip(extracted.value)| >= MinExtractedLength ==>
      r == ChatbotOutcome(chat(extracted.value), loads, dumps, describe)
  {
    if extracted.Err? {
      return Failure(ExtractionErrorPrefix + extracted.error, None);
    }
    var text := extracted.value;
    if text == "" || |PyStrip(text)| < MinExtractedLength {
      return Failure(InsufficientTextError, None);
    }
    r := ProcessWithChatbot(text, chat, loads, dumps, describe);
  }
}
