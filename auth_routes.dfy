/**
 * The decision ladders of server/routes/auth.js (`/register`, `/login`, `/verify`) and the
 * `verifyToken` wrapper. Signing and checking tokens (jsonwebtoken) and hashing and
 * comparing passwords (bcrypt) are opaque oracles passed in as functions.
 */
module AuthRoutes {
  import opened Wrappers
  import opened Text
  import opened Js
  import Store

  /** The payload a token carries: `{ username }`. */
  datatype Claims = Claims(username: string)

  /** What `jwt.verify` does with a token: return its payload, or throw. */
  datatype JwtOutcome = Decoded(claims: Claims) | Thrown

  /** The cryptographic collaborators, as oracles. */
  datatype Crypto = Crypto(
    jwtVerify: string -> JwtOutcome,   // jwt.verify(token, secret)
    sign: string -> string,            // generateToken(username)
    hash: string -> string,            // bcrypt.hash(password, 12)
    compare: (string, string) -> bool) // bcrypt.compare(password, hash)

  const MissingCredentials := "Nom d'utilisateur et mot de passe requis"
  const BadUsernameLength := "Le nom d'utilisateur doit contenir entre 2 et 20 caractères"
  const BadUsernameChars := "Le nom d'utilisateur ne peut contenir que des lettres, chiffres, tirets et underscores"
  const ShortPassword := "Le mot de passe doit contenir au moins 6 caractères"
  const UsernameTaken := "Ce nom d'utilisateur est déjà pris"
  const InvalidCredentials := "Nom d'utilisateur ou mot de passe incorrect"
  const MissingToken := "Token manquant"
  const InvalidToken := "Token invalide"
  const UnknownUser := "Utilisateur introuvable"

  /** The user fields a response exposes (never the password hash). */
  datatype PublicUser = PublicUser(id: Store.UserId, username: string, createdAt: int, lastLogin: Option<int>)

  function Public(u: Store.User): PublicUser {
    PublicUser(u.id, u.username, u.createdAt, u.lastLogin)
  }

  /** The user part of the reply to `/register`: id, username and creation time, no last login. */
  datatype NewAccount = NewAccount(id: Store.UserId, username: string, createdAt: int)

  /**
   * An HTTP answer: an error status with `{ error }`, a new account with its token, or a status
   * with the user and maybe a token.
   */
  datatype Response =
    | Failure(status: int, error: string)
    | Created(status: int, account: NewAccount, signed: string)
    | Success(status: int, user: PublicUser, token: Option<string>)

  /** `verifyToken`: the payload when `jwt.verify` succeeds, null instead of any exception. */
  function VerifyToken(jwtVerify: string -> JwtOutcome, token: string): (r: Option<Claims>)
    ensures r.Some? <==> jwtVerify(token).Decoded?
    ensures r.Some? ==> r.value == jwtVerify(token).claims
  {
    match jwtVerify(token)
    case Decoded(c) => Some(c)
    case Thrown => None
  }

  /**
   * The validation of `/register` as the route writes it, on whatever JSON values the body
   * holds. `length` is undefined on anything but a string, so both length comparisons are
   * false for a number or `true`; the pattern test reads the value's `String(...)` text.
   */
  function RegisterValidationAsWritten(username: Value, password: Value): (r: Option<string>)
    ensures r.None? <==>
      && Truthy(username) && Truthy(password)
      && (username.Str? ==> 2 <= |username.s| <= 20)
      && MatchesUsernamePattern(ToText(username))
      && (password.Str? ==> |password.s| >= 6)
    ensures !Truthy(username) || !Truthy(password) ==> r == Some(MissingCredentials)
    ensures Truthy(username) && Truthy(password) && username.Str? && !(2 <= |username.s| <= 20) ==>
      r == Some(BadUsernameLength)
    ensures (Truthy(username) && Truthy(password) && (username.Str? ==> 2 <= |username.s| <= 20)
             && !MatchesUsernamePattern(ToText(username))) ==> r == Some(BadUsernameChars)
    ensures (Truthy(username) && Truthy(password) && (username.Str? ==> 2 <= |username.s| <= 20)
             && MatchesUsernamePattern(ToText(username)) && password.Str? && |password.s| < 6) ==>
      r == Some(ShortPassword)
  {
    if !Truthy(username) || !Truthy(password) then Some(MissingCredentials)
    else if username.Str? && (|username.s| < 2 || |username.s| > 20) then Some(BadUsernameLength)
    else if !MatchesUsernamePattern(ToText(username)) then Some(BadUsernameChars)
    else if password.Str? && |password.s| < 6 then Some(ShortPassword)
    else None
  }

  /** A one-digit numeric username, or a one-digit numeric password, passes every check. */
  lemma NumericFieldsSkipLengthRules()
    ensures RegisterValidationAsWritten(Num(7), Str("secret1")).None? && |ToText(Num(7))| == 1
    ensures RegisterValidationAsWritten(Str("alice"), Num(1)).None? && |ToText(Num(1))| == 1
  {
    assert ToText(Num(7)) == "7";
    assert ToText(Num(1)) == "1";
    assert MatchesUsernamePattern("7");
    assert MatchesUsernamePattern("alice");
  }

  /**
   * Exactly the non-zero numbers below 10^21 in magnitude get through as usernames: their text
   * is digits, perhaps after a minus sign, while larger ones are written with `e+`.
   */
  lemma NumericUsernamesAccepted(n: int, password: string)
    requires |password| >= 6
    ensures RegisterValidationAsWritten(Num(n), Str(password)).None? <==>
      n != 0 && -(ExponentThreshold as int) < n < ExponentThreshold
  {
    var m: nat := if n < 0 then -n else n;
    if m < ExponentThreshold {
      DigitsMatchPattern(DecimalDigits(m));
      if n < 0 {
        var t := NumberText(n);
        assert t == "-" + DecimalDigits(m);
        forall i | 0 <= i < |t| ensures IsUsernameChar(t[i]) {
          if i > 0 {
            assert t[i] == DecimalDigits(m)[i - 1];
          }
        }
      }
    } else {
      var significant := DecimalDigits(StripTrailingZeros(m));
      var fraction := if |significant| > 1 then "." + significant[1..] else "";
      var text := [significant[0]] + fraction + "e+" + DecimalDigits(|DecimalDigits(m)| - 1);
      var plus := 1 + |fraction| + 1;
      assert text[plus] == '+';
      if n < 0 {
        assert ("-" + text)[plus + 1] == '+';
      }
    }
  }

  lemma DigitsMatchPattern(d: string)
    requires |d| >= 1 && forall i :: 0 <= i < |d| ==> '0' <= d[i] <= '9'
    ensures MatchesUsernamePattern(d)
  {
  }

  /**
   * The validation `/register` evidently intends: a username that is not a string has no valid
   * length, and a password that is not a string is not 6 characters long. On string fields it
   * is the route's own ladder.
   */
  function RegisterValidation(username: Value, password: Value): (r: Option<string>)
    ensures r.None? <==>
      && username.Str? && password.Str?
      && 2 <= |username.s| <= 20 && MatchesUsernamePattern(username.s) && |password.s| >= 6
    ensures !Truthy(username) || !Truthy(password) ==> r == Some(MissingCredentials)
    ensures Truthy(username) && Truthy(password) && !(username.Str? && 2 <= |username.s| <= 20) ==>
      r == Some(BadUsernameLength)
    ensures (Truthy(username) && Truthy(password) && username.Str? && 2 <= |username.s| <= 20
             && !MatchesUsernamePattern(username.s)) ==> r == Some(BadUsernameChars)
    ensures (Truthy(username) && Truthy(password) && username.Str? && 2 <= |username.s| <= 20
             && MatchesUsernamePattern(username.s) && !(password.Str? && |password.s| >= 6)) ==>
      r == Some(ShortPassword)
  {
    if !Truthy(username) || !Truthy(password) then Some(MissingCredentials)
    else if !username.Str? || |username.s| < 2 || |username.s| > 20 then Some(BadUsernameLength)
    else if !MatchesUsernamePattern(username.s) then Some(BadUsernameChars)
    else if !password.Str? || |password.s| < 6 then Some(ShortPassword)
    else None
  }

  /** The correction changes nothing for string fields, the only ones the form sends. */
  lemma CorrectionKeepsStringFields(username: string, password: string)
    ensures RegisterValidation(Str(username), Str(password)) == RegisterValidationAsWritten(Str(username), Str(password))
  {
  }

  /**
   * `/register`, validating as intended: 400 on invalid input, 409 when a case-insensitive
   * lookup finds the name taken, otherwise the user is created with the hashed password and
   * 201 is returned with the new account (id, username, creation time) and a token for the
   * username.
   */
  method Register(db: Store.Database, username: Value, password: Value, crypto: Crypto, now: int)
    returns (resp: Response)
    requires db.Valid()
    modifies db
    ensures db.Valid() && Store.KeysKept(old(db.users), db.users) && db.messages == old(db.messages)
    ensures RegisterValidation(username, password).Some? ==>
      resp == Failure(400, RegisterValidation(username, password).value) && db.users == old(db.users)
    ensures RegisterValidation(username, password).None? && Store.FindUser(old(db.users), username.s).Some? ==>
      resp == Failure(409, UsernameTaken) && db.users == old(db.users)
    ensures RegisterValidation(username, password).None? && Store.FindUser(old(db.users), username.s).None? ==>
      var u := Store.User(old(db.nextUserId), username.s, crypto.hash(password.s), now, None);
      && db.users == old(db.users) + [u]
      && resp == Created(201, NewAccount(u.id, u.username, u.createdAt), crypto.sign(username.s))
  {
    var invalid := RegisterValidation(username, password);
    if invalid.Some? {
      return Failure(400, invalid.value);
    }
    var name, secret := username.s, password.s;
    var existing := Store.FindUser(db.users, name);
    if existing.Some? {
      return Failure(409, UsernameTaken);
    }
    forall i | 0 <= i < |db.users| ensures db.users[i].username != name {
      assert db.users[i] in db.users;
    }
    var hashed := crypto.hash(secret);
    var user := db.CreateUser(name, hashed, now);
    var token := crypto.sign(name);
    resp := Created(201, NewAccount(user.id, user.username, user.createdAt), token);
  }

  /** The outcome of the `/login` checks, before the last-login update. */
  datatype LoginStep = LoginRejected(status: int, error: string) | LoginAccepted(user: Store.User)

  /**
   * The checks of `/login`: 400 when a field is missing, then the same 401 text whether the
   * user is unknown or the password does not match.
   */
  function LoginDecision(username: string, password: string, users: seq<Store.User>,
                         compare: (string, string) -> bool): (r: LoginStep)
    ensures r.LoginAccepted? <==>
      username != "" && password != "" && Store.FindUser(users, username).Some? &&
      compare(password, Store.FindUser(users, username).value.password)
    ensures r.LoginAccepted? ==> r.user == Store.FindUser(users, username).value
    ensures r.LoginRejected? ==>
      (r.status == 400 && r.error == MissingCredentials) || (r.status == 401 && r.error == InvalidCredentials)
    ensures r.LoginRejected? && r.status == 400 <==> username == "" || password == ""
  {
    if username == "" || password == "" then LoginRejected(400, MissingCredentials)
    else match Store.FindUser(users, username)
      case None => LoginRejected(401, InvalidCredentials)
      case Some(user) =>
        if !compare(password, user.password) then LoginRejected(401, InvalidCredentials)
        else LoginAccepted(user)
  }

  /**
   * `/login`: on success the last-login time of the matching rows is set to `now`, and the
   * refreshed user is returned with a token signed for the stored username.
   */
  method Login(db: Store.Database, username: string, password: string, crypto: Crypto, now: int)
    returns (resp: Response)
    requires db.Valid()
    modifies db
    ensures db.Valid() && Store.KeysKept(old(db.users), db.users) && db.messages == old(db.messages)
    ensures LoginDecision(username, password, old(db.users), crypto.compare).LoginRejected? ==>
      var step := LoginDecision(username, password, old(db.users), crypto.compare);
      resp == Failure(step.status, step.error) && db.users == old(db.users)
    ensures LoginDecision(username, password, old(db.users), crypto.compare).LoginAccepted? ==>
      var user := LoginDecision(username, password, old(db.users), crypto.compare).user;
      db.users == Store.Touch(old(db.users), username, now) &&
      resp == Success(200, Public(user.(lastLogin := Some(now))), Some(crypto.sign(user.username)))
  {
    var step := LoginDecision(username, password, db.users, crypto.compare);
    if step.LoginRejected? {
      return Failure(step.status, step.error);
    }
    Store.TouchRefreshes(db.users, username, now);
    var updated := db.UpdateUserLastLogin(username, now);
    var token := crypto.sign(step.user.username);
    resp := Success(200, Public(updated.value), Some(token));
  }

  /** The token of `/verify`: the Authorization header with its first "Bearer " removed. */
  function BearerToken(authorization: Option<string>): Option<string> {
    match authorization
    case None => None
    case Some(h) => Some(ReplaceFirst(h, "Bearer ", ""))
  }

  /**
   * `/verify`: 401 for a missing or empty token, for a token that does not verify, and for a
   * token whose user no longer exists, in that order; otherwise 200 with that user.
   */
  function VerifyRequest(authorization: Option<string>, jwtVerify: string -> JwtOutcome,
                         users: seq<Store.User>): (r: Response)
    ensures r.Failure? ==> r.status == 401
    ensures r.Success? <==>
      var t := BearerToken(authorization);
      t.Some? && t.value != "" && VerifyToken(jwtVerify, t.value).Some? &&
      Store.FindUser(users, VerifyToken(jwtVerify, t.value).value.username).Some?
    ensures r.Success? ==>
      var claims := VerifyToken(jwtVerify, BearerToken(authorization).value).value;
      r == Success(200, Public(Store.FindUser(users, claims.username).value), None)
    ensures BearerToken(authorization).None? || BearerToken(authorization).value == "" ==>
      r == Failure(401, MissingToken)
    ensures var t := BearerToken(authorization);
      t.Some? && t.value != "" && VerifyToken(jwtVerify, t.value).None? ==> r == Failure(401, InvalidToken)
    ensures var t := BearerToken(authorization);
      t.Some? && t.value != "" && VerifyToken(jwtVerify, t.value).Some? &&
      Store.FindUser(users, VerifyToken(jwtVerify, t.value).value.username).None? ==>
      r == Failure(401, UnknownUser)
  {
    var token := BearerToken(authorization);
    if token.None? || token.value == "" then Failure(401, MissingToken)
    else match VerifyToken(jwtVerify, token.value)
      case None => Failure(401, InvalidToken)
      case Some(claims) =>
        match Store.FindUser(users, claims.username)
        case None => Failure(401, UnknownUser)
        case Some(user) => Success(200, Public(user), None)
  }
}
