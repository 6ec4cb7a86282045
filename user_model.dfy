/**
 * User accounts: choosing the login column, the duplicate checks of sign-up,
 * the login steps and the profile UPDATE builder. The users table is a
 * sequence of rows; bcrypt's compare is a parameter. Request bodies are
 * objects given as their entries in key order.
 */
module UserModel {
  import opened Wrappers
  import opened Strings
  import opened Json
  import opened Seqs

  datatype UserRow = UserRow(userId: int, username: string, email: string, role: string,
                             verifiedAt: Option<string>, passwordHash: string)

  /** The user loginUser hands back: the selected columns without the
      password hash. The lookup selects only the login column, so exactly one
      of username and email is present. */
  datatype PublicUser = PublicUser(userId: int, username: Option<string>, email: Option<string>,
                                   role: string, verifiedAt: Option<string>)

  const UsernameTaken := "Username đã tồn tại"
  const EmailTaken := "Email đã tồn tại"
  const UnknownLogin := "Tên đăng nhập hoặc email không tồn tại"
  const WrongPassword := "Mật khẩu không chính xác"
  const NotVerified := "Tài khoản chưa được xác thực. Vui lòng kiểm tra email."
  const LastLoginFailed := "Không thể cập nhật thời gian đăng nhập"
  const NothingToUpdate := "Không có thông tin hợp lệ để cập nhật"

  /** The column a login field is looked up in: email when it contains '@'. */
  function LoginColumn(loginField: string): (column: string)
    ensures column == "email" <==> '@' in loginField
    ensures column == "username" <==> '@' !in loginField
  {
    if '@' in loginField then "email" else "username"
  }

  function ColumnValue(u: UserRow, column: string): string {
    if column == "email" then u.email else u.username
  }

  /** findUserByLoginField: the first row whose login column equals the field. */
  function FindUserByLoginField(users: seq<UserRow>, loginField: string): (r: Option<UserRow>)
    ensures r.Some? ==> r.value in users && ColumnValue(r.value, LoginColumn(loginField)) == loginField
    ensures r.None? <==> forall u :: u in users ==> ColumnValue(u, LoginColumn(loginField)) != loginField
  {
    if users == [] then None
    else if ColumnValue(users[0], LoginColumn(loginField)) == loginField then Some(users[0])
    else
      var r := FindUserByLoginField(users[1..], loginField);
      assert forall u :: u in users[1..] ==> u in users;
      assert forall u :: u in users ==> u == users[0] || u in users[1..];
      r
  }

  /** findUserByUsernameOrEmail: the first row that shares the username or
      the email. */
  function FindUserByUsernameOrEmail(users: seq<UserRow>, username: string, email: string): (r: Option<UserRow>)
    ensures r.Some? ==> r.value in users && (r.value.username == username || r.value.email == email)
    ensures r.None? <==> forall u :: u in users ==> u.username != username && u.email != email
  {
    if users == [] then None
    else if users[0].username == username || users[0].email == email then Some(users[0])
    else
      var r := FindUserByUsernameOrEmail(users[1..], username, email);
      assert forall u :: u in users[1..] ==> u in users;
      assert forall u :: u in users ==> u == users[0] || u in users[1..];
      r
  }

  /** createUser's check on the row findUserByUsernameOrEmail returns: a
      shared username is reported before a shared email. */
  function CreateUserConflict(users: seq<UserRow>, username: string, email: string): (r: Option<string>)
    ensures r.None? <==> forall u :: u in users ==> u.username != username && u.email != email
    ensures r.Some? ==> r.value == UsernameTaken || r.value == EmailTaken
    ensures r == Some(UsernameTaken) ==> exists u :: u in users && u.username == username
    ensures r == Some(EmailTaken) ==> exists u :: u in users && u.email == email && u.username != username
  {
    var existing := FindUserByUsernameOrEmail(users, username, email);
    if existing.Some? then
      if existing.value.username == username then Some(UsernameTaken)
      else if existing.value.email == email then Some(EmailTaken)
      else None
    else None
  }

  /** A username that no row holds is never reported as taken, and an email
      that no row holds is never reported as taken. */
  lemma ConflictNeedsMatch(users: seq<UserRow>, username: string, email: string)
    ensures (forall u :: u in users ==> u.username != username) ==> CreateUserConflict(users, username, email) != Some(UsernameTaken)
    ensures (forall u :: u in users ==> u.email != email) ==>
      CreateUserConflict(users, username, email) != Some(EmailTaken)
  {
  }

  /** `const { password_hash, ...userWithoutPassword } = user`, over the
      columns the lookup selected. */
  function WithoutPassword(u: UserRow, column: string): (r: PublicUser)
    ensures r.userId == u.userId && r.role == u.role && r.verifiedAt == u.verifiedAt
    ensures r.username.Some? <==> column == "username"
    ensures r.email.Some? <==> column == "email"
    ensures r.username.Some? ==> r.username.value == u.username
    ensures r.email.Some? ==> r.email.value == u.email
  {
    PublicUser(u.userId,
               if column == "username" then Some(u.username) else None,
               if column == "email" then Some(u.email) else None,
               u.role, u.verifiedAt)
  }

  /** `!user.verified_at`: the account counts as verified exactly when its
      verified_at value is truthy, so null and '' are not. */
  function Verified(u: UserRow): (b: bool)
    ensures b <==> JsTruthy(if u.verifiedAt.Some? then Str(u.verifiedAt.value) else Null)
  {
    u.verifiedAt.Some? && u.verifiedAt.value != ""
  }

  /** loginUser: existence, then password, then verification, then the
      last-login update, whose success is a parameter. Its catch block
      rethrows each error unchanged. */
  function LoginUser(users: seq<UserRow>, loginField: string, password: string,
                     compare: (string, string) -> bool, lastLoginUpdated: bool): (r: Result<PublicUser, string>)
    ensures FindUserByLoginField(users, loginField).None? ==> r == Err(UnknownLogin)
    ensures r.Ok? <==> (FindUserByLoginField(users, loginField).Some? &&
                        compare(password, FindUserByLoginField(users, loginField).value.passwordHash) &&
                        Verified(FindUserByLoginField(users, loginField).value) &&
                        lastLoginUpdated)
    ensures r.Ok? ==> r.value == WithoutPassword(FindUserByLoginField(users, loginField).value, LoginColumn(loginField))
    ensures r.Err? ==> r.error in {UnknownLogin, WrongPassword, NotVerified, LastLoginFailed}
    ensures var found := FindUserByLoginField(users, loginField);
      r == Err(LastLoginFailed) <==>
        found.Some? && compare(password, found.value.passwordHash) && Verified(found.value) && !lastLoginUpdated
  {
    var found := FindUserByLoginField(users, loginField);
    if found.None? then Err(UnknownLogin)
    else if !compare(password, found.value.passwordHash) then Err(WrongPassword)
    else if !Verified(found.value) then Err(NotVerified)
    else if !lastLoginUpdated then Err(LastLoginFailed)
    else Ok(WithoutPassword(found.value, LoginColumn(loginField)))
  }

  /** The user returned carries the login field under its own column and
      not the other one. */
  lemma LoginFieldColumn(users: seq<UserRow>, loginField: string, password: string,
                         compare: (string, string) -> bool, lastLoginUpdated: bool)
    ensures var r := LoginUser(users, loginField, password, compare, lastLoginUpdated);
      r.Ok? ==> (if '@' in loginField then r.value.email == Some(loginField) && r.value.username.None?
                 else r.value.username == Some(loginField) && r.value.email.None?)
  {
  }

  /** A wrong password never logs in, whatever the verification state; a
      right password on an unverified account is refused as unverified. */
  lemma WrongPasswordRefused(users: seq<UserRow>, loginField: string, password: string,
                             compare: (string, string) -> bool, lastLoginUpdated: bool)
    requires FindUserByLoginField(users, loginField).Some?
    ensures !compare(password, FindUserByLoginField(users, loginField).value.passwordHash) ==>
      LoginUser(users, loginField, password, compare, lastLoginUpdated) == Err(WrongPassword)
    ensures compare(password, FindUserByLoginField(users, loginField).value.passwordHash) &&
            !Verified(FindUserByLoginField(users, loginField).value) ==>
      LoginUser(users, loginField, password, compare, lastLoginUpdated) == Err(NotVerified)
  {
  }

  /** An object's entries, in key order. */
  type Entries = seq<(string, Value)>

  const ValidFields: seq<string> := ["full_name", "dob", "gender", "phone_number", "address", "profile_picture_url"]

  /** `validFields.includes(key) && profileData[key] !== undefined`. */
  predicate Kept(entry: (string, Value)) {
    entry.0 in ValidFields && entry.1 != Undefined
  }

  datatype ProfileUpdate = ProfileUpdate(sql: string, values: seq<Value>)

  function Assignments(kept: Entries): (r: seq<string>)
    ensures |r| == |kept|
  {
    seq(|kept|, i requires 0 <= i < |kept| => kept[i].0 + " = ?")
  }

  function EntryValues(kept: Entries): (r: seq<Value>)
    ensures |r| == |kept|
  {
    seq(|kept|, i requires 0 <= i < |kept| => kept[i].1)
  }

  /** The UPDATE statement that sets the given entries of one user. */
  function UpdateSql(kept: Entries): string {
    "UPDATE users SET " + Join(Assignments(kept), ", ") + " WHERE user_id = ?"
  }

  /** updateUserProfile: the forEach keeps the valid, defined entries in key
      order; the SET list names them in that order and the values end with
      the user id. */
  method UpdateUserProfile(userId: Value, profileData: Entries) returns (r: Result<ProfileUpdate, string>)
    ensures r.Err? <==> Filter(profileData, Kept) == []
    ensures r.Err? ==> r.error == NothingToUpdate
    ensures r.Ok? ==> r.value.sql == UpdateSql(Filter(profileData, Kept))
    ensures r.Ok? ==> r.value.values == EntryValues(Filter(profileData, Kept)) + [userId]
  {
    var updates: Entries := [];
    for i := 0 to |profileData|
      invariant updates == Filter(profileData[..i], Kept)
    {
      assert profileData[..i + 1] == profileData[..i] + [profileData[i]];
      FilterAppend(profileData[..i], profileData[i], Kept);
      if Kept(profileData[i]) {
        updates := updates + [profileData[i]];
      }
    }
    assert profileData[..|profileData|] == profileData;
    if |updates| == 0 {
      return Err(NothingToUpdate);
    }
    var fields := Join(Assignments(updates), ", ");
    var values := EntryValues(updates) + [userId];
    r := Ok(ProfileUpdate("UPDATE users SET " + fields + " WHERE user_id = ?", values));
  }

  /** Only valid fields reach the SET list, each with a defined value (null
      included), and every placeholder of the list has its value. */
  lemma UpdateTouchesValidFields(profileData: Entries, k: string, v: Value)
    ensures (k, v) in Filter(profileData, Kept) <==> (k, v) in profileData && k in ValidFields && v != Undefined
    ensures k in ValidFields && (k, Null) in profileData ==> (k, Null) in Filter(profileData, Kept)
  {
    FilterMembers(profileData, Kept, (k, v));
    FilterMembers(profileData, Kept, (k, Null));
  }

  /** The statement has one placeholder per value: one per kept entry and
      the user id's. */
  lemma PlaceholdersMatchValues(userId: Value, profileData: Entries)
    requires Filter(profileData, Kept) != []
    ensures var kept := Filter(profileData, Kept);
      CountChar(UpdateSql(kept), '?') == |EntryValues(kept) + [userId]|
  {
    var kept := Filter(profileData, Kept);
    forall i | 0 <= i < |kept| ensures '?' !in kept[i].0 {
      FilterMembers(profileData, Kept, kept[i]);
      ValidFieldsPlain(kept[i].0);
    }
    AssignmentPlaceholders(kept);
    SqlFramePlaceholders(Join(Assignments(kept), ", "));
  }

  /** The text around the SET list holds only the user id's placeholder. */
  lemma SqlFramePlaceholders(setList: string)
    ensures CountChar("UPDATE users SET " + setList + " WHERE user_id = ?", '?') == CountChar(setList, '?') + 1
  {
    CountCharConcat("UPDATE users SET " + setList, " WHERE user_id = ?", '?');
    CountCharConcat("UPDATE users SET ", setList, '?');
    LiteralCounts();
  }

  lemma LiteralCounts()
    ensures CountChar("UPDATE users SET ", '?') == 0
    ensures CountChar(" WHERE user_id = ?", '?') == 1
  {
    PlainLiteral("UPDATE users SET ");
    WhereCount();
  }

  lemma WhereCount()
    ensures CountChar(" WHERE user_id = ?", '?') == 1
  {
    CountCharOnlyLast(" WHERE user_id = ?", '?');
  }

  lemma PlainLiteral(s: string)
    requires forall i | 0 <= i < |s| :: s[i] != '?'
    ensures CountChar(s, '?') == 0
  {
    CountCharAbsent(s, '?');
  }

  lemma OnePlaceholder()
    ensures CountChar(" = ?", '?') == 1
  {
    CountCharOnlyLast(" = ?", '?');
  }

  lemma ValidFieldsPlain(k: string)
    requires k in ValidFields
    ensures '?' !in k
  {
  }

  /** The SET list has one placeholder per assignment. */
  lemma {:induction false} AssignmentPlaceholders(kept: Entries)
    requires forall i :: 0 <= i < |kept| ==> '?' !in kept[i].0
    ensures CountChar(Join(Assignments(kept), ", "), '?') == |kept|
  {
    if |kept| > 0 {
      var a := Assignments(kept);
      CountCharAbsent(kept[0].0, '?');
      CountCharConcat(kept[0].0, " = ?", '?');
      OnePlaceholder();
      if |kept| > 1 {
        assert a[1..] == Assignments(kept[1..]);
        AssignmentPlaceholders(kept[1..]);
        CountCharConcat(a[0] + ", ", Join(a[1..], ", "), '?');
        CountCharConcat(a[0], ", ", '?');
        CountCharAbsent(", ", '?');
      }
    }
  }
}
