/**
 * The placeholder authentication helpers of api/app/users/routes.py and the
 * login flow built on them: a password "hash" is the password behind a fixed
 * prefix, a token is the user id behind another prefix.
 */
module Auth {
  import opened Wrappers
  import opened Users

  const HashPrefix: string := "hashed_"
  const TokenPrefix: string := "token_"

  /** `hash_password`: the prefix followed by the password itself. */
  function HashPassword(password: string): (h: string)
    ensures |h| == |HashPrefix| + |password|
    ensures h[..|HashPrefix|] == HashPrefix && h[|HashPrefix|..] == password
  {
    HashPrefix + password
  }

  /** `verify_password`: the stored hash is exactly the hash of the candidate. */
  function VerifyPassword(plain: string, hashed: string): bool
  {
    hashed == HashPassword(plain)
  }

  /** A password verifies against a hash exactly when that hash was made from it. */
  lemma VerifyIffSamePassword(p: string, q: string)
    ensures VerifyPassword(q, HashPassword(p)) <==> q == p
  {
    if VerifyPassword(q, HashPassword(p)) {
      assert HashPassword(p)[|HashPrefix|..] == p;
      assert HashPassword(q)[|HashPrefix|..] == q;
    }
  }

  /** A stored value lacking the prefix verifies no password at all. */
  lemma VerifyNeedsPrefix(plain: string, hashed: string)
    requires |hashed| < |HashPrefix| || hashed[..|HashPrefix|] != HashPrefix
    ensures !VerifyPassword(plain, hashed)
  {
  }

  /** Decimal digits of a natural number, most significant first. */
  function IdText(n: nat): (s: string)
    ensures |s| >= 1
    ensures forall i :: 0 <= i < |s| ==> '0' <= s[i] <= '9'
    decreases n
  {
    if n < 10 then [DigitChar(n)] else IdText(n / 10) + [DigitChar(n % 10)]
  }

  function DigitChar(d: nat): (c: char)
    requires d < 10
    ensures '0' <= c <= '9'
  {
    (48 + d) as char
  }

  /** The value of a string of decimal digits. */
  function DigitsValue(s: string): nat
    requires forall i :: 0 <= i < |s| ==> '0' <= s[i] <= '9'
  {
    if |s| == 0 then 0 else 10 * DigitsValue(s[..|s| - 1]) + (s[|s| - 1] as int - 48)
  }

  /** Reading back the decimal text of a number gives the number. */
  lemma {:induction false} IdTextRoundTrip(n: nat)
    ensures DigitsValue(IdText(n)) == n
    decreases n
  {
    var s := IdText(n);
    if n >= 10 {
      IdTextRoundTrip(n / 10);
      assert s[..|s| - 1] == IdText(n / 10);
    }
  }

  /** Distinct ids have distinct texts. */
  lemma IdTextInjective(a: nat, b: nat)
    ensures IdText(a) == IdText(b) ==> a == b
  {
    IdTextRoundTrip(a);
    IdTextRoundTrip(b);
  }

  /** `create_access_token`: the prefix followed by the id's text. */
  function CreateAccessToken(userId: nat): (t: string)
    ensures |t| > |TokenPrefix| && t[..|TokenPrefix|] == TokenPrefix
  {
    TokenPrefix + IdText(userId)
  }

  /** The id a token names, when it has the token form. */
  function TokenSubject(t: string): (r: Option<nat>)
    ensures r.Some? ==> |t| > |TokenPrefix| && t[..|TokenPrefix|] == TokenPrefix
  {
    if |t| > |TokenPrefix| && t[..|TokenPrefix|] == TokenPrefix
       && forall i :: |TokenPrefix| <= i < |t| ==> '0' <= t[i] <= '9'
    then Some(DigitsValue(t[|TokenPrefix|..]))
    else None
  }

  /** A token names the user it was made for, so tokens of distinct users differ. */
  lemma TokenRoundTrip(userId: nat)
    ensures TokenSubject(CreateAccessToken(userId)) == Some(userId)
  {
    var t := CreateAccessToken(userId);
    assert t[|TokenPrefix|..] == IdText(userId);
    IdTextRoundTrip(userId);
  }

  datatype Session = Session(userId: nat, accessToken: string)

  /** Both failures answer with the same 401 message. */
  datatype LoginError = InvalidEmailOrPassword

  /** `login_user`: look the user up by e-mail, check the password, issue a token. */
  function Login(us: map<nat, User>, bound: nat, email: string, password: string): (r: Result<Session, LoginError>)
    ensures r.Ok? <==> UserWithEmail(us, bound, email).Some?
                       && VerifyPassword(password, us[UserWithEmail(us, bound, email).value].passwordHash)
    ensures r.Ok? ==> && r.value.userId in us && us[r.value.userId].email == email
                      && r.value.accessToken == CreateAccessToken(r.value.userId)
  {
    match UserWithEmail(us, bound, email)
    case None => Err(InvalidEmailOrPassword)
    case Some(id) =>
      if !VerifyPassword(password, us[id].passwordHash) then Err(InvalidEmailOrPassword)
      else Ok(Session(id, CreateAccessToken(id)))
  }

  /** Over a registered store, login succeeds exactly for a stored e-mail and its own password. */
  lemma LoginIffCredentials(us: map<nat, User>, bound: nat, email: string, password: string)
    requires Registered(us, bound)
    ensures Login(us, bound, email, password).Ok? <==>
              exists id :: id in us && us[id].email == email && us[id].passwordHash == HashPassword(password)
  {
    if id :| id in us && us[id].email == email && us[id].passwordHash == HashPassword(password) {
      EmailFindsOnly(us, bound, email, id);
    }
  }

  /** A wrong password is refused even for a stored e-mail. */
  lemma LoginRejectsOtherPassword(us: map<nat, User>, bound: nat, id: nat, p: string, q: string)
    requires Registered(us, bound)
    requires id in us && us[id].passwordHash == HashPassword(p) && q != p
    ensures Login(us, bound, us[id].email, q) == Err(InvalidEmailOrPassword)
  {
    EmailFindsOnly(us, bound, us[id].email, id);
    VerifyIffSamePassword(p, q);
  }

  /** A user stored with the hash of `p` logs in with `p` and receives the token for its new id. */
  lemma RegisterThenLogin(us: map<nat, User>, bound: nat, u: User, p: string)
    requires Registered(us, bound)
    requires UserWithEmail(us, bound, u.email).None?
    requires u.passwordHash == HashPassword(p)
    ensures Login(us[bound := u], bound + 1, u.email, p) == Ok(Session(bound, CreateAccessToken(bound)))
  {
    AddUserKeeps(us, bound, u);
    EmailFindsOnly(us[bound := u], bound + 1, u.email, bound);
  }
}
