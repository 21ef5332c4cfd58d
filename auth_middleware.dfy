/**
 * `authMiddleware`: reads the `Authorization` header, checks the `Bearer`
 * scheme, verifies the token and loads the user. Token verification
 * (`jwt.verify`) is an oracle giving the payload's user id, or nothing when
 * verification throws.
 */
module AuthMiddleware {
  import opened Optionals
  import opened Strings
  import opened Tables
  import Records
  import Accounts

  datatype HeaderCheck = MissingHeader | InvalidHeader | Bearer(token: string)

  /** Steps 1 and 2: a falsy header is missing; otherwise `const [type, token] =
      header.split(" ")` must give `type === "Bearer"` and a truthy `token`. */
  function ParseAuthorization(header: Option<string>): (r: HeaderCheck)
    ensures r == MissingHeader <==> header.None? || header.value == ""
    ensures r.Bearer? ==> r.token != "" && ' ' !in r.token
  {
    if header.None? || header.value == "" then MissingHeader
    else
      var parts := Split(header.value);
      var token := if |parts| > 1 then parts[1] else "";
      SplitPiecesHaveNoSpace(header.value);
      if parts[0] != "Bearer" || token == "" then InvalidHeader else Bearer(token)
  }

  /** A header passes exactly when it is `Bearer `, a space-free non-empty token,
      and then nothing or anything starting with a space (the later pieces are ignored). */
  lemma BearerAccepted(token: string, rest: string)
    requires token != "" && ' ' !in token
    requires rest == "" || rest[0] == ' '
    ensures ParseAuthorization(Some("Bearer " + token + rest)) == Bearer(token)
  {
    var h := "Bearer " + token + rest;
    var q := " " + token + rest;
    assert h == "Bearer" + q;
    SplitSpaceFreePrefix("Bearer", q);
    assert q[0] == ' ' && q[1..] == token + rest;
    SplitSpaceFreePrefix(token, rest);
    if rest == "" {
      assert Split(rest)[0] == "";
    } else {
      assert Split(rest) == [""] + Split(rest[1..]);
    }
    assert Split(h)[0] == "Bearer" + "";
    assert Split(h)[1] == token + "";
  }

  /** Conversely, an accepted header has that shape. */
  lemma BearerShape(h: string)
    requires ParseAuthorization(Some(h)).Bearer?
    ensures var token := ParseAuthorization(Some(h)).token;
      exists rest :: h == "Bearer " + token + rest && (rest == "" || rest[0] == ' ')
  {
    var parts := Split(h);
    var token := parts[1];
    JoinSplit(h);
    assert Join(parts) == parts[0] + " " + Join(parts[1..]);
    var rest := if |parts| == 2 then "" else " " + Join(parts[2..]);
    if |parts| > 2 {
      assert parts[1..][1..] == parts[2..];
    }
    assert Join(parts[1..]) == token + rest;
    assert h == "Bearer " + token + rest;
  }

  /** Two spaces after the scheme leave an empty token: rejected. */
  lemma DoubleSpaceRejected(t: string)
    ensures ParseAuthorization(Some("Bearer  " + t)) == InvalidHeader
  {
    var h := "Bearer  " + t;
    var q := "  " + t;
    assert h == "Bearer" + q;
    SplitSpaceFreePrefix("Bearer", q);
    assert q[1..] == " " + t;
    assert (" " + t)[1..] == t;
    assert Split(q) == [""] + Split(" " + t);
    assert Split(" " + t) == [""] + Split(t);
    assert Split(h)[1] == "";
  }

  /** The identity attached to the request as `req.user`. */
  datatype Principal = Principal(id: int, email: string, name: string)

  datatype AuthResult =
    | Authenticated(user: Principal)
    | Rejected(message: string)

  const MissingHeaderMessage := "Missing authorization header"
  const InvalidHeaderMessage := "Invalid authorization header"
  const UserGoneMessage := "User no longer exists. Please log in again."
  const InvalidTokenMessage := "Invalid or expired token"

  /** The whole middleware; every rejection is a 401 and does not reach the route. */
  function Authenticate(users: Table<Records.User>, header: Option<string>, verify: string -> Option<int>): (r: AuthResult)
    ensures ParseAuthorization(header) == MissingHeader ==> r == Rejected(MissingHeaderMessage)
    ensures ParseAuthorization(header) == InvalidHeader ==> r == Rejected(InvalidHeaderMessage)
    ensures ParseAuthorization(header).Bearer? && verify(ParseAuthorization(header).token).None? ==>
      r == Rejected(InvalidTokenMessage)
    ensures ParseAuthorization(header).Bearer? && verify(ParseAuthorization(header).token).Some?
            && users.Get(verify(ParseAuthorization(header).token).value).None? ==>
      r == Rejected(UserGoneMessage)
    ensures r.Authenticated? <==>
      && ParseAuthorization(header).Bearer?
      && verify(ParseAuthorization(header).token).Some?
      && users.Get(verify(ParseAuthorization(header).token).value).Some?
    ensures r.Authenticated? ==>
      && r.user.id == verify(ParseAuthorization(header).token).value
      && users.Get(r.user.id) == Some(Records.User(r.user.name, r.user.email,
           users.Get(r.user.id).value.passwordHash, users.Get(r.user.id).value.dropboxAccessToken,
           users.Get(r.user.id).value.dropboxAccountEmail))
  {
    match ParseAuthorization(header)
    case MissingHeader => Rejected(MissingHeaderMessage)
    case InvalidHeader => Rejected(InvalidHeaderMessage)
    case Bearer(token) =>
      match verify(token)
      case None => Rejected(InvalidTokenMessage)
      case Some(id) =>
        match users.Get(id)
        case None => Rejected(UserGoneMessage)
        case Some(u) => Authenticated(Principal(id, u.email, u.name))
  }

  /** The token a register or login answers with, sent back as `Bearer <token>`,
      authenticates the same user while that user exists, given that
      verification recovers the id a token was signed with. */
  lemma SessionAuthenticates(users: Table<Records.User>, x: Row<Records.User>,
                             sign: Accounts.Signer, verify: string -> Option<int>)
    requires users.Get(x.id) == Some(x.data)
    requires sign(x.id, x.data.email) != "" && ' ' !in sign(x.id, x.data.email)
    requires verify(sign(x.id, x.data.email)) == Some(x.id)
    ensures var s := Accounts.SessionFor(x, sign);
      Authenticate(users, Some("Bearer " + s.token), verify)
        == Authenticated(Principal(s.user.id, s.user.email, s.user.name))
  {
    var token := sign(x.id, x.data.email);
    BearerAccepted(token, "");
    assert "Bearer " + token + "" == "Bearer " + token;
  }
}
