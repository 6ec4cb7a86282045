/**
 * The forum category form: the checks run before a category is created or
 * updated, the error text shown when the API refuses, and the values a
 * create sends.
 */
module Category {
  import opened Wrappers
  import opened Json
  import opened Strings
  import ForumMessages

  const NameRequired := "Category name is required"
  const NameLength := "Name must be 3-50 characters"
  const DescLength := "Description must be 10-200 characters when provided"

  predicate NameFits(name: string) {
    3 <= |name| <= 50
  }

  predicate DescFits(desc: string) {
    10 <= |desc| <= 200
  }

  /** `description?.trim() || ""`. */
  function TrimmedDescription(description: Option<string>): string {
    if description.Some? then JsTrim(description.value) else ""
  }

  /** validateInputs: the first failing check, or None. */
  function ValidateInputs(categoryName: string, description: Option<string>): (r: Option<string>)
    ensures r == Some(NameRequired) <==> JsTrim(categoryName) == ""
    ensures r == Some(NameLength) <==> JsTrim(categoryName) != "" && !NameFits(JsTrim(categoryName))
    ensures r == Some(DescLength) <==>
      NameFits(JsTrim(categoryName)) && TrimmedDescription(description) != "" && !DescFits(TrimmedDescription(description))
    ensures r.None? <==>
      NameFits(JsTrim(categoryName)) && (TrimmedDescription(description) == "" || DescFits(TrimmedDescription(description)))
  {
    var trimmedName := JsTrim(categoryName);
    var trimmedDesc := TrimmedDescription(description);
    if trimmedName == "" then Some(NameRequired)
    else if |trimmedName| < 3 || |trimmedName| > 50 then Some(NameLength)
    else if trimmedDesc != "" && (|trimmedDesc| < 10 || |trimmedDesc| > 200) then Some(DescLength)
    else None
  }

  /** Only the trimmed texts matter, and a missing description is the same
      as an empty or blank one. */
  lemma OnlyTrimmedMatter(name1: string, name2: string, desc1: Option<string>, desc2: Option<string>)
    requires JsTrim(name1) == JsTrim(name2) && TrimmedDescription(desc1) == TrimmedDescription(desc2)
    ensures ValidateInputs(name1, desc1) == ValidateInputs(name2, desc2)
    ensures ValidateInputs(name1, None) == ValidateInputs(name1, Some(""))
  {
    assert ValidateInputs(name1, desc1) == ValidateInputs(name2, desc2);
    assert TrimmedDescription(None) == TrimmedDescription(Some(""));
  }

  /** handleApiError's message: the API's message, else the error's own,
      else the default; then the detailed errors on their own lines when
      there are any. None when building the details throws. */
  function ApiErrorMessage(error: Value, defaultMessage: string, show: Value -> string): (r: Option<string>)
    ensures ForumMessages.BuildDetailedErrors(ForumMessages.Chain(ForumMessages.Chain(error, "response"), "data"), show).None? <==> r.None?
  {
    var data := ForumMessages.Chain(ForumMessages.Chain(error, "response"), "data");
    var apiMessage := ForumMessages.Chain(data, "message");
    var ownMessage := ForumMessages.Chain(error, "message");
    var errorMessage :=
      if JsTruthy(apiMessage) then ForumMessages.JoinText(apiMessage, show)
      else if JsTruthy(ownMessage) then ForumMessages.JoinText(ownMessage, show)
      else defaultMessage;
    match ForumMessages.BuildDetailedErrors(data, show)
    case None => None
    case Some(details) => Some(errorMessage + (if details != "" then "\n" + details else ""))
  }

  /** The error of a refused request: the API's string message wins over the
      error's own; without details the message is shown alone, with details
      they follow after one line break. */
  lemma ApiMessagePrecedence(apiMessage: string, ownMessage: Value, details: seq<Value>, defaultMessage: string, show: Value -> string)
    requires apiMessage != ""
    requires forall i :: 0 <= i < |details| ==> details[i].Obj? && Get(details[i].fields, "message").Str?
    ensures var error := Obj(map["message" := ownMessage, "response" := Obj(map["data" := Obj(map["message" := Str(apiMessage), "errors" := Arr(details)])])]);
      var text := Join(ForumMessages.MessageTexts(details, show), "\n");
      ApiErrorMessage(error, defaultMessage, show) == Some(apiMessage + (if text != "" then "\n" + text else ""))
  {
    var data := Obj(map["message" := Str(apiMessage), "errors" := Arr(details)]);
    forall i | 0 <= i < |details| ensures !ForumMessages.Nullish(details[i]) { }
  }

  /** With no truthy message anywhere and no truthy detailed errors the
      default is shown alone. */
  lemma DefaultWhenSilent(error: Value, defaultMessage: string, show: Value -> string)
    requires !JsTruthy(ForumMessages.Chain(error, "message"))
    requires var data := ForumMessages.Chain(ForumMessages.Chain(error, "response"), "data");
      !JsTruthy(ForumMessages.Chain(data, "message")) && !JsTruthy(ForumMessages.Chain(data, "errors"))
    ensures ApiErrorMessage(error, defaultMessage, show) == Some(defaultMessage)
  {
    assert defaultMessage + "" == defaultMessage;
  }

  /** An empty error object and a null error both show the default. */
  lemma DefaultForEmptyError(defaultMessage: string, show: Value -> string)
    ensures ApiErrorMessage(Obj(map[]), defaultMessage, show) == Some(defaultMessage)
    ensures ApiErrorMessage(Null, defaultMessage, show) == Some(defaultMessage)
  {
    DefaultWhenSilent(Obj(map[]), defaultMessage, show);
    DefaultWhenSilent(Null, defaultMessage, show);
  }

  /** Without a truthy API message the error's own message is shown, and
      alone when the response carries no detailed errors. */
  lemma OwnMessageFallback(error: Value, ownMessage: string, defaultMessage: string, show: Value -> string)
    requires error.Obj? && Get(error.fields, "message") == Str(ownMessage) && ownMessage != ""
    requires var data := ForumMessages.Chain(ForumMessages.Chain(error, "response"), "data");
      !JsTruthy(ForumMessages.Chain(data, "message")) && !JsTruthy(ForumMessages.Chain(data, "errors"))
    ensures ApiErrorMessage(error, defaultMessage, show) == Some(ownMessage)
  {
    assert ownMessage + "" == ownMessage;
  }

  /** `description?.trim()`. */
  function TrimSome(description: Option<string>): (r: Option<string>)
    ensures description.None? <==> r.None?
    ensures TrimmedDescription(r) == TrimmedDescription(description)
  {
    if description.Some? then
      TrimIdempotent(description.value, IsJsSpace);
      Some(JsTrim(description.value))
    else None
  }

  /** What handleCreateCategory sends: the trimmed name and description, and
      only after validation passed; otherwise the validation message is shown. */
  function CreateRequest(categoryName: string, description: Option<string>): (r: Result<(string, Option<string>), string>)
    ensures r.Err? <==> ValidateInputs(categoryName, description).Some?
    ensures r.Err? ==> r.error == ValidateInputs(categoryName, description).value
    ensures r.Ok? ==> r.value.0 == JsTrim(categoryName) && NameFits(r.value.0)
    ensures r.Ok? ==> r.value.1 == TrimSome(description)
  {
    var v := ValidateInputs(categoryName, description);
    if v.Some? then Err(v.value)
    else Ok((JsTrim(categoryName), TrimSome(description)))
  }

  /** The values sent validate again, and trimming them changes nothing. */
  lemma SentValuesValidate(categoryName: string, description: Option<string>)
    requires ValidateInputs(categoryName, description).None?
    ensures ValidateInputs(JsTrim(categoryName), TrimSome(description)).None?
    ensures JsTrim(JsTrim(categoryName)) == JsTrim(categoryName)
  {
    PassedChecks(categoryName, description);
    TrimmedNameFits(categoryName);
    ChecksPass(JsTrim(categoryName), TrimSome(description));
    TrimIdempotent(categoryName, IsJsSpace);
  }

  /** What the checks establish when they pass. */
  lemma PassedChecks(categoryName: string, description: Option<string>)
    requires ValidateInputs(categoryName, description).None?
    ensures NameFits(JsTrim(categoryName))
    ensures TrimmedDescription(description) == "" || DescFits(TrimmedDescription(description))
  {
  }

  /** A name that fits once trimmed still fits when trimmed again. */
  lemma TrimmedNameFits(name: string)
    requires NameFits(JsTrim(name))
    ensures NameFits(JsTrim(JsTrim(name)))
  {
    TrimIdempotent(name, IsJsSpace);
  }

  /** The checks pass on a name and description that fit once trimmed. */
  lemma ChecksPass(name: string, d: Option<string>)
    requires NameFits(JsTrim(name)) && (TrimmedDescription(d) == "" || DescFits(TrimmedDescription(d)))
    ensures ValidateInputs(name, d).None?
  {
  }
}
