/**
 * The profile controllers: updateUserProfile sanitises the request body,
 * checks the gender, turns empty strings of the nullable fields into null
 * and hands the rest to the user model; uploadUserAvatar checks the file
 * before the upload. The body is an object given as its entries in key order.
 */
module UserController {
  import opened Wrappers
  import opened Json
  import opened Seqs
  import opened Strings
  import opened UserModel

  datatype Response = Response(status: int, message: string)

  const NoValidFields := "No valid fields provided for update"
  const BadGenderMessage := "Gender must be 'Male' or 'Female'"
  const ProfileUpdated := "Profile updated successfully"
  const ProfileUpdateFailed := "Error updating user profile"
  const NoImage := "No image file provided"
  const BadImageType := "Invalid file type. Only JPEG, PNG, GIF, and WebP are allowed."

  const AllowedFields: seq<string> := ["full_name", "dob", "gender", "phone_number", "address", "profile_picture_url"]
  /** Every allowed field except full_name. */
  const NullableFields: seq<string> := ["dob", "gender", "phone_number", "address", "profile_picture_url"]
  const AllowedMimeTypes: seq<string> := ["image/jpeg", "image/png", "image/gif", "image/webp"]

  predicate Allowed(entry: (string, Value)) {
    entry.0 in AllowedFields
  }

  /** `obj[key]`: the value under the key, undefined when absent. */
  function Lookup(e: Entries, k: string): (v: Value)
    ensures v != Undefined ==> (k, v) in e
    ensures (forall i :: 0 <= i < |e| ==> e[i].0 != k) ==> v == Undefined
  {
    if e == [] then Undefined
    else if e[0].0 == k then e[0].1
    else
      var v := Lookup(e[1..], k);
      assert (k, v) in e[1..] ==> (k, v) in e;
      v
  }

  /** `gender && !['Male', 'Female'].includes(gender)`: a truthy value that is
      not one of the two strings. */
  predicate BadGender(g: Value) {
    JsTruthy(g) && g != Str("Male") && g != Str("Female")
  }

  /** An entry the empty-string step rewrites, for the fields in `fields`. */
  predicate BlankIn(entry: (string, Value), fields: seq<string>) {
    entry.0 in fields && entry.1 == Str("")
  }

  /** The entries after `obj[f] = null` for each f in `fields` whose value is ''. */
  function BlankedFor(e: Entries, fields: seq<string>): (r: Entries)
    ensures |r| == |e|
    ensures forall i :: 0 <= i < |e| ==> r[i].0 == e[i].0
    ensures forall i :: 0 <= i < |e| && !BlankIn(e[i], fields) ==> r[i] == e[i]
    ensures forall i :: 0 <= i < |e| && BlankIn(e[i], fields) ==> r[i].1 == Null
  {
    seq(|e|, i requires 0 <= i < |e| => if BlankIn(e[i], fields) then (e[i].0, Null) else e[i])
  }

  /** The sanitised body with every empty nullable field set to null: no
      nullable field is left holding '', and only such entries change. */
  function Blanked(e: Entries): (r: Entries)
    ensures |r| == |e|
    ensures forall i :: 0 <= i < |r| ==> !(r[i].0 in NullableFields && r[i].1 == Str(""))
    ensures forall i :: 0 <= i < |e| ==> r[i].0 == e[i].0 && (r[i] != e[i] ==> e[i].1 == Str("") && r[i].1 == Null)
  {
    BlankedFor(e, NullableFields)
  }

  /** One pass of the forEach: field f is looked up and set to null when ''. */
  lemma BlankedStep(e: Entries, fields: seq<string>, f: string)
    ensures BlankedFor(BlankedFor(e, fields), [f]) == BlankedFor(e, fields + [f])
  {
    var a := BlankedFor(BlankedFor(e, fields), [f]);
    var b := BlankedFor(e, fields + [f]);
    forall i | 0 <= i < |e| ensures a[i] == b[i] {
      assert e[i].0 in fields + [f] <==> e[i].0 in fields || e[i].0 == f;
    }
  }

  /** The forEach over the allowed keys of the body. */
  method Sanitize(body: Entries) returns (sanitized: Entries)
    ensures sanitized == Filter(body, Allowed)
  {
    sanitized := [];
    for i := 0 to |body|
      invariant sanitized == Filter(body[..i], Allowed)
    {
      assert body[..i + 1] == body[..i] + [body[i]];
      FilterAppend(body[..i], body[i], Allowed);
      if Allowed(body[i]) {
        sanitized := sanitized + [body[i]];
      }
    }
    assert body[..|body|] == body;
  }

  /** The forEach over the nullable fields, rewriting '' to null in place. */
  method NullBlankFields(sanitized: Entries) returns (data: Entries)
    ensures data == Blanked(sanitized)
  {
    data := sanitized;
    assert data == BlankedFor(sanitized, NullableFields[..0]);
    for j := 0 to |NullableFields|
      invariant data == BlankedFor(sanitized, NullableFields[..j])
    {
      var field := NullableFields[j];
      var next := seq(|data|, i requires 0 <= i < |data| => if data[i].0 == field && data[i].1 == Str("") then (field, Null) else data[i]);
      assert next == BlankedFor(data, [field]);
      BlankedStep(sanitized, NullableFields[..j], field);
      assert NullableFields[..j + 1] == NullableFields[..j] + [field];
      data := next;
    }
    assert NullableFields[..|NullableFields|] == NullableFields;
  }

  /** updateUserProfile. `update` is the statement the model runs; a model
      error is caught and answered with status 500. */
  method UpdateProfile(userId: Value, body: Entries) returns (resp: Response, update: Option<ProfileUpdate>)
    ensures Filter(body, Allowed) == [] ==> resp == Response(400, NoValidFields) && update.None?
    ensures Filter(body, Allowed) != [] && BadGender(Lookup(Filter(body, Allowed), "gender")) ==>
      resp == Response(400, BadGenderMessage) && update.None?
    ensures resp.status == 200 <==>
      (Filter(body, Allowed) != [] && !BadGender(Lookup(Filter(body, Allowed), "gender")) &&
       Filter(Blanked(Filter(body, Allowed)), Kept) != [])
    ensures resp.status == 200 ==> resp.message == ProfileUpdated
    ensures resp.status == 200 ==> update == Some(ProfileUpdate(
      UpdateSql(Filter(Blanked(Filter(body, Allowed)), Kept)),
      EntryValues(Filter(Blanked(Filter(body, Allowed)), Kept)) + [userId]))
    ensures resp.status != 200 ==> update.None?
    ensures resp.status == 500 ==> resp.message == ProfileUpdateFailed
    ensures Filter(body, Allowed) != [] && !BadGender(Lookup(Filter(body, Allowed), "gender")) &&
            Filter(Blanked(Filter(body, Allowed)), Kept) == [] ==>
      resp == Response(500, ProfileUpdateFailed) && update.None?
    ensures resp.status in {200, 400, 500}
  {
    var sanitized := Sanitize(body);
    if |sanitized| == 0 {
      return Response(400, NoValidFields), None;
    }
    if BadGender(Lookup(sanitized, "gender")) {
      return Response(400, BadGenderMessage), None;
    }
    var data := NullBlankFields(sanitized);
    var result := UpdateUserProfile(userId, data);
    if result.Err? {
      return Response(500, ProfileUpdateFailed), None;
    }
    resp, update := Response(200, ProfileUpdated), Some(result.value);
  }

  /** After the validation, the gender that reaches the model is "Male",
      "Female" or a falsy value other than the empty string. */
  lemma {:induction false} GenderReachingModel(s: Entries)
    requires !BadGender(Lookup(s, "gender"))
    ensures var g := Lookup(Blanked(s), "gender");
      g == Str("Male") || g == Str("Female") || (!JsTruthy(g) && g != Str(""))
  {
    BlankedLookup(s, "gender");
  }

  /** Looking a field up after the rewrite gives the rewritten value. */
  lemma {:induction false} BlankedLookup(s: Entries, k: string)
    ensures Lookup(Blanked(s), k) == (if k in NullableFields && Lookup(s, k) == Str("") then Null else Lookup(s, k))
  {
    if s != [] {
      assert Blanked(s)[1..] == Blanked(s[1..]);
      BlankedLookup(s[1..], k);
    }
  }

  /** No nullable field reaches the model as '', while an empty full_name is
      passed on unchanged. */
  lemma NoEmptyNullableField(s: Entries)
    ensures forall i :: 0 <= i < |s| && s[i].0 in NullableFields ==> Blanked(s)[i].1 != Str("")
    ensures forall i :: 0 <= i < |s| && s[i].0 == "full_name" ==> Blanked(s)[i] == s[i]
  {
    assert "full_name" !in NullableFields;
  }

  /** Only allowed fields reach the statement: every entry the model keeps
      came from the body under an allowed key. */
  lemma UpdateUsesBodyFields(body: Entries, i: nat)
    requires i < |Filter(Blanked(Filter(body, Allowed)), Kept)|
    ensures var e := Filter(Blanked(Filter(body, Allowed)), Kept)[i];
      e.0 in AllowedFields && (e in body || (e.1 == Null && (e.0, Str("")) in body))
  {
    var s := Filter(body, Allowed);
    var b := Blanked(s);
    var e := Filter(b, Kept)[i];
    FilterMembers(b, Kept, e);
    var j :| 0 <= j < |b| && b[j] == e;
    FilterMembers(body, Allowed, s[j]);
    if !BlankIn(s[j], NullableFields) {
      assert e == s[j];
    } else {
      assert (e.0, Str("")) == s[j];
    }
  }

  /** uploadUserAvatar's checks: a file must be present and its MIME type
      one of the four image types. `mimeType` is None when there is no file. */
  function AvatarCheck(mimeType: Option<string>): (r: Option<Response>)
    ensures r == Some(Response(400, NoImage)) <==> mimeType.None?
    ensures r == Some(Response(400, BadImageType)) <==> mimeType.Some? && mimeType.value !in AllowedMimeTypes
    ensures r.None? <==> mimeType.Some? && mimeType.value in AllowedMimeTypes
  {
    if mimeType.None? then Some(Response(400, NoImage))
    else if mimeType.value !in AllowedMimeTypes then Some(Response(400, BadImageType))
    else None
  }
}
