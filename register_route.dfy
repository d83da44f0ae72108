/** The registration endpoint (src/app/api/register/route.ts): the checks on
    the posted fields, the conflict lookup and the answer without the hash. */
module RegisterRoute {
  import opened Wrappers
  import opened FormRules

  /** The posted JSON fields; a field the body lacks is None. */
  datatype RegisterBody = RegisterBody(email: Option<string>, username: Option<string>, password: Option<string>)

  /** A stored user, as far as the conflict lookup reads it. */
  datatype Account = Account(email: string, username: string)

  /** The JSON body of the answer: an error message, or the stored user's
      columns by name. */
  datatype Json = ErrorJson(error: string) | UserJson(fields: map<string, string>)

  datatype Response = Response(status: nat, body: Json)

  const MissingFields := "Email, username, and password are required. Password must be at least 6 characters."
  const BadUsername := "Username must be 3-20 characters and contain only letters, numbers, and underscores."
  const EmailTaken := "User with this email already exists."
  const UsernameTaken := "Username is already taken."
  const InternalError := "An internal server error occurred."

  /** A JavaScript truthiness test on an optional string. */
  predicate Present(field: Option<string>) {
    field.Some? && field.value != ""
  }

  /** The first check: all three fields present and the password at least six long. */
  predicate FieldsAcceptable(b: RegisterBody) {
    Present(b.email) && Present(b.username) && Present(b.password) && |b.password.value| >= 6
  }

  /** `findFirst` with `OR: [{ email }, { username }]`, taken in table order. */
  function FindFirst(users: seq<Account>, email: string, username: string): (r: Option<Account>)
    ensures r.Some? ==> r.value in users && (r.value.email == email || r.value.username == username)
    ensures r.None? <==> forall i :: 0 <= i < |users| ==> users[i].email != email && users[i].username != username
  {
    if users == [] then None
    else if users[0].email == email || users[0].username == username then Some(users[0])
    else FindFirst(users[1..], email, username)
  }

  /** The row the database stores: the columns it fills itself (id, role,
      timestamps) and the three the route writes. */
  function NewRow(defaults: map<string, string>, email: string, username: string, passwordHash: string): map<string, string> {
    defaults["email" := email]["username" := username]["passwordHash" := passwordHash]
  }

  /** The stored row without its `passwordHash` column. */
  function WithoutHash(row: map<string, string>): (r: map<string, string>)
    ensures "passwordHash" !in r
    ensures forall k :: k in row && k != "passwordHash" ==> k in r && r[k] == row[k]
    ensures forall k :: k in r ==> k in row
  {
    row - {"passwordHash"}
  }

  /** `POST /api/register`. `body` is None when the request body is not JSON;
      `users` is the user table; `hash` is the bcrypt hash of the password,
      None when hashing throws; `defaults` are the columns the database fills
      on insert; `createFails` says the insert throws. */
  function Post(body: Option<RegisterBody>, users: seq<Account>, hash: Option<string>,
                defaults: map<string, string>, createFails: bool): (r: Response)
    ensures body.None? ==> r == Response(500, ErrorJson(InternalError))
    ensures body.Some? && !FieldsAcceptable(body.value) ==> r == Response(400, ErrorJson(MissingFields))
    ensures body.Some? && FieldsAcceptable(body.value) && !ValidUsername(body.value.username.value) ==>
      r == Response(400, ErrorJson(BadUsername))
  {
    if body.None? then Response(500, ErrorJson(InternalError))
    else
      var b := body.value;
      if !FieldsAcceptable(b) then Response(400, ErrorJson(MissingFields))
      else if !ValidUsername(b.username.value) then Response(400, ErrorJson(BadUsername))
      else
        match FindFirst(users, b.email.value, b.username.value)
        case Some(existing) =>
          if existing.email == b.email.value then Response(409, ErrorJson(EmailTaken))
          else Response(409, ErrorJson(UsernameTaken))
        case None =>
          if hash.None? || createFails then Response(500, ErrorJson(InternalError))
          else Response(201, UserJson(WithoutHash(NewRow(defaults, b.email.value, b.username.value, hash.value))))
  }

  /** The request passes both field checks. */
  predicate WellFormed(body: Option<RegisterBody>) {
    body.Some? && FieldsAcceptable(body.value) && ValidUsername(body.value.username.value)
  }

  /** 400 exactly when a field check fails, whatever the table holds. */
  lemma BadRequestIff(body: Option<RegisterBody>, users: seq<Account>, hash: Option<string>,
                      defaults: map<string, string>, createFails: bool)
    ensures Post(body, users, hash, defaults, createFails).status == 400 <==> body.Some? && !WellFormed(body)
  {
  }

  /** 409 exactly when the request is well formed and some user already has
      the email or the username. */
  lemma ConflictIff(body: Option<RegisterBody>, users: seq<Account>, hash: Option<string>,
                    defaults: map<string, string>, createFails: bool)
    ensures Post(body, users, hash, defaults, createFails).status == 409 <==>
      WellFormed(body) &&
      exists i :: 0 <= i < |users| && (users[i].email == body.value.email.value || users[i].username == body.value.username.value)
  {
    if WellFormed(body) {
      var b := body.value;
      var found := FindFirst(users, b.email.value, b.username.value);
      if found.None? {
        assert forall i :: 0 <= i < |users| ==> users[i].email != b.email.value && users[i].username != b.username.value;
      } else {
        var i :| 0 <= i < |users| && users[i] == found.value;
      }
    }
  }

  /** `i` is the first user in table order holding the email or the username. */
  predicate FirstConflict(users: seq<Account>, email: string, username: string, i: int) {
    0 <= i < |users| && (users[i].email == email || users[i].username == username) &&
    forall j :: 0 <= j < i ==> users[j].email != email && users[j].username != username
  }

  /** The lookup returns the first conflicting user in table order. */
  lemma {:induction false} FindFirstAt(users: seq<Account>, email: string, username: string, i: int)
    requires FirstConflict(users, email, username, i)
    ensures FindFirst(users, email, username) == Some(users[i])
  {
    if i > 0 {
      assert FirstConflict(users[1..], email, username, i - 1) by {
        forall j | 0 <= j < i - 1
          ensures users[1..][j].email != email && users[1..][j].username != username
        {
          assert users[1..][j] == users[j + 1];
        }
      }
      FindFirstAt(users[1..], email, username, i - 1);
    }
  }

  /** The conflict message is decided by the first conflicting user alone: the
      email message iff that user holds the email, else the username message. */
  lemma ConflictMessage(b: RegisterBody, users: seq<Account>, hash: Option<string>,
                        defaults: map<string, string>, createFails: bool, i: int)
    requires WellFormed(Some(b)) && FirstConflict(users, b.email.value, b.username.value, i)
    ensures Post(Some(b), users, hash, defaults, createFails) ==
      Response(409, ErrorJson(if users[i].email == b.email.value then EmailTaken else UsernameTaken))
  {
    FindFirstAt(users, b.email.value, b.username.value, i);
  }

  /** 201 exactly when the request is well formed, no user holds the email or
      the username, the hash is computed and the insert succeeds. */
  lemma CreatedIff(body: Option<RegisterBody>, users: seq<Account>, hash: Option<string>,
                   defaults: map<string, string>, createFails: bool)
    ensures Post(body, users, hash, defaults, createFails).status == 201 <==>
      WellFormed(body) && hash.Some? && !createFails &&
      forall i :: 0 <= i < |users| ==> users[i].email != body.value.email.value && users[i].username != body.value.username.value
  {
  }

  /** When the first conflicting user holds both the email and the username,
      the email message wins. */
  lemma EmailConflictFirst(b: RegisterBody, users: seq<Account>, hash: Option<string>,
                           defaults: map<string, string>, createFails: bool)
    requires WellFormed(Some(b))
    requires |users| >= 1 && users[0] == Account(b.email.value, b.username.value)
    ensures Post(Some(b), users, hash, defaults, createFails) == Response(409, ErrorJson(EmailTaken))
  {
  }

  /** A created user is answered with 201 and every stored column but the
      password hash; nobody else had the email or the username. */
  lemma CreatedWithoutHash(body: Option<RegisterBody>, users: seq<Account>, hash: Option<string>,
                           defaults: map<string, string>, createFails: bool)
    requires Post(body, users, hash, defaults, createFails).status == 201
    ensures WellFormed(body) && hash.Some? && !createFails
    ensures forall i :: 0 <= i < |users| ==> users[i].email != body.value.email.value && users[i].username != body.value.username.value
    ensures Post(body, users, hash, defaults, createFails).body.UserJson?
    ensures var fields := Post(body, users, hash, defaults, createFails).body.fields;
      "passwordHash" !in fields &&
      fields == WithoutHash(NewRow(defaults, body.value.email.value, body.value.username.value, hash.value)) &&
      fields["email"] == body.value.email.value && fields["username"] == body.value.username.value
  {
  }

  /** Any answer other than 201 carries an error message. */
  lemma FailuresCarryError(body: Option<RegisterBody>, users: seq<Account>, hash: Option<string>,
                           defaults: map<string, string>, createFails: bool)
    ensures var r := Post(body, users, hash, defaults, createFails);
      r.status in {201, 400, 409, 500} && (r.status != 201 <==> r.body.ErrorJson?)
  {
  }
}
