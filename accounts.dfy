/**
 * The user registry of `/auth`: lookup by email, the uniqueness rule that
 * registration keeps, and login. `bcrypt.compare` and `jwt.sign` are
 * parameters: a password check and a signer over the payload `{id, email}`.
 */
module Accounts {
  import opened Optionals
  import opened Tables
  import opened Records
  import opened JsValues
  import opened Responses

  const RegisterRequiredMessage := "Name, email and password are required"
  const EmailInUseMessage := "Email already in use"
  const LoginRequiredMessage := "Email and password are required"
  const InvalidCredentialsMessage := "Invalid credentials"

  /** `jwt.sign({ id, email }, secret)`. */
  type Signer = (int, string) -> string

  /** `bcrypt.compare(password, hash)`. */
  type PasswordCheck = (string, string) -> bool

  /** The user part of an auth response: id, name and email, never the hash. */
  datatype PublicUser = PublicUser(id: int, name: string, email: string)

  datatype Session = Session(token: string, user: PublicUser)

  /** `User.findOne({ where: { email } })`: the first user with that email. */
  function UserByEmail(users: seq<Row<User>>, email: string): (r: Option<Row<User>>)
    ensures r.Some? ==> r.value in users && r.value.data.email == email
    ensures r.None? <==> forall x :: x in users ==> x.data.email != email
  {
    if users == [] then None
    else if users[0].data.email == email then Some(users[0])
    else UserByEmail(users[1..], email)
  }

  /** No two users share an email. */
  ghost predicate EmailsUnique(users: seq<Row<User>>)
  {
    forall x, y :: x in users && y in users && x.id != y.id ==> x.data.email != y.data.email
  }

  /** Under unique emails the lookup finds exactly the user holding the email. */
  lemma {:induction false} UniqueEmailLookup(users: seq<Row<User>>, x: Row<User>)
    requires EmailsUnique(users) && Increasing(users)
    requires x in users
    ensures UserByEmail(users, x.data.email) == Some(x)
  {
    var r := UserByEmail(users, x.data.email);
    IdsDistinct(users, r.value, x);
  }

  /** Rows of an increasing sequence with equal ids are the same row. */
  lemma {:induction false} IdsDistinct<T>(rows: seq<Row<T>>, a: Row<T>, b: Row<T>)
    requires Increasing(rows) && a in rows && b in rows
    ensures a.id == b.id ==> a == b
  {
    var i :| 0 <= i < |rows| && rows[i] == a;
    var j :| 0 <= j < |rows| && rows[j] == b;
    assert a.id == b.id ==> i == j;
  }

  /** The response of a successful register or login. */
  function SessionFor(x: Row<User>, sign: Signer): Session
  {
    Session(sign(x.id, x.data.email), PublicUser(x.id, x.data.name, x.data.email))
  }

  /** `POST /auth/login`: 400 unless both fields are truthy; an unknown email
      and a wrong password give the same 401. */
  function Login(users: Table<User>, email: Field, password: Field, check: PasswordCheck, sign: Signer): (r: Outcome<Session>)
    ensures !(FieldTruthy(email) && FieldTruthy(password)) ==> r == Failure(BadRequest(LoginRequiredMessage))
    ensures r.Success? <==>
      FieldTruthy(email) && FieldTruthy(password)
      && UserByEmail(users.rows, email.s).Some?
      && check(password.s, UserByEmail(users.rows, email.s).value.data.passwordHash)
    ensures r.Success? ==> r.value == SessionFor(UserByEmail(users.rows, email.s).value, sign)
    ensures FieldTruthy(email) && FieldTruthy(password) && r.Failure? ==>
      r == Failure(Unauthorized(InvalidCredentialsMessage))
  {
    if !(FieldTruthy(email) && FieldTruthy(password)) then Failure(BadRequest(LoginRequiredMessage))
    else match UserByEmail(users.rows, email.s)
      case None => Failure(Unauthorized(InvalidCredentialsMessage))
      case Some(x) =>
        if check(password.s, x.data.passwordHash) then Success(SessionFor(x, sign))
        else Failure(Unauthorized(InvalidCredentialsMessage))
  }

  /** Login of a registered user with the password its hash accepts succeeds
      and returns that user. */
  lemma LoginFindsRegisteredUser(users: Table<User>, x: Row<User>, password: string, check: PasswordCheck, sign: Signer)
    requires users.Valid() && EmailsUnique(users.rows) && x in users.rows
    requires x.data.email != "" && password != "" && check(password, x.data.passwordHash)
    ensures Login(users, Given(x.data.email), Given(password), check, sign) == Success(SessionFor(x, sign))
  {
    UniqueEmailLookup(users.rows, x);
  }
}
