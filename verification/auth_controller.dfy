/**
 * Registration, login and the user directory.  The password hashing
 * library and the token signer are parameters: `hash` salts and hashes a
 * password, `compare` checks a password against a stored hash, `sign`
 * turns a payload into a signed token and `verify` is the middleware's
 * check of one.
 */
module AuthController {
  import opened Common
  import opened Db
  import opened Text
  import AuthMiddleware

  /**
   * `generateToken`: a signed token whose payload is the user id and
   * nothing else, with a lifetime of seven days (604800 seconds).
   */
  function GenerateToken(userId: Id, sign: Claims -> string): (token: string)
    ensures token == sign(Claims(userId, 604800))
  {
    sign(Claims(userId, TOKEN_LIFETIME))
  }

  /**
   * A token issued here, sent back as `Authorization: Bearer <token>`, lets
   * the middleware through as the same user, as long as the token library
   * accepts what it signed (that is, before expiry) and the token is
   * non-empty text without spaces, as a JWT is.
   */
  lemma IssuedTokenAuthenticates(userId: Id, sign: Claims -> string, verify: string -> Option<Claims>)
    requires verify(GenerateToken(userId, sign)) == Some(Claims(userId, TOKEN_LIFETIME))
    requires GenerateToken(userId, sign) != "" && ' ' !in GenerateToken(userId, sign)
    ensures AuthMiddleware.Authenticate(Some("Bearer " + GenerateToken(userId, sign)), verify)
         == AuthMiddleware.Next(userId)
  {
    var token := GenerateToken(userId, sign);
    AuthMiddleware.TokenAfterAnyScheme("Bearer", token, "");
    assert "Bearer " + token == "Bearer" + [' '] + token + "";
  }

  /**
   * `register`: 400 when the email is taken (exact match), otherwise one new
   * user holding the hash of the password, and 201 with a token for it.
   */
  method Register(db: Store, name: string, email: string, password: string,
                  hash: string -> string, sign: Claims -> string, newId: Id) returns (r: Reply<string>)
    requires db.Valid() && newId !in db.users
    modifies db
    ensures db.Valid()
    ensures db.projects == old(db.projects) && db.members == old(db.members) && db.tasks == old(db.tasks)
    ensures db.clock == old(db.clock)
    ensures (exists u | u in old(db.users) :: old(db.users)[u].email == email) ==>
      r == Fail(BAD_REQUEST) && db.users == old(db.users)
    ensures (forall u | u in old(db.users) :: old(db.users)[u].email != email) ==>
      && r == Ok(CREATED, GenerateToken(newId, sign))
      && db.users == old(db.users)[newId := User(name, email, hash(password))]
  {
    var existing := db.FindByEmail(email);
    if existing.Some? {
      return Fail(BAD_REQUEST);
    }
    var hashedPassword := hash(password);
    db.users := db.users[newId := User(name, email, hashedPassword)];
    r := Ok(CREATED, GenerateToken(newId, sign));
  }

  /**
   * `login`: 400 for an unknown email and 400 for a password that does not
   * match the stored hash; otherwise 200 with a token for that user.
   */
  function Login(db: Store, email: string, password: string,
                 compare: (string, string) -> bool, sign: Claims -> string): (r: Reply<string>)
    reads db
    requires db.Valid()
    ensures (forall u | u in db.users :: db.users[u].email != email) ==> r == Fail(BAD_REQUEST)
    ensures forall u | u in db.users && db.users[u].email == email ::
      r == if compare(password, db.users[u].passwordHash) then Ok(OK, GenerateToken(u, sign)) else Fail(BAD_REQUEST)
  {
    match db.FindByEmail(email)
    case None => Fail(BAD_REQUEST)
    case Some(id) =>
      if !compare(password, db.users[id].passwordHash) then Fail(BAD_REQUEST)
      else Ok(OK, GenerateToken(id, sign))
  }

  /** `getProfile`: `{ id, name, email }` of the caller; a vanished caller gives 200 with null. */
  function GetProfile(db: Store, callerId: Id): (r: Reply<Option<Profile>>)
    reads db
    ensures r.Ok? && r.code == OK
    ensures r.value.Some? <==> callerId in db.users
    ensures r.value.Some? ==>
      r.value.value.id == callerId && r.value.value.name == db.users[callerId].name
      && r.value.value.email == db.users[callerId].email
  {
    Ok(OK, ProfileOf(db.users, callerId))
  }

  /**
   * `searchUsers`: 400 when the query is missing or empty; otherwise
   * `{ id, email }` of exactly the users whose email contains the query,
   * ignoring case.
   */
  function SearchUsers(db: Store, query: Option<string>): (r: Reply<set<UserRef>>)
    reads db
    ensures r.Fail? <==> !Truthy(query)
    ensures r.Fail? ==> r.code == BAD_REQUEST
    ensures r.Ok? ==> r.code == OK
    ensures r.Ok? ==> forall ref | ref in r.value ::
      ref.id in db.users && ref.email == db.users[ref.id].email && ContainsIgnoringCase(ref.email, query.value)
    ensures r.Ok? ==> forall u | u in db.users && ContainsIgnoringCase(db.users[u].email, query.value) ::
      UserRef(u, db.users[u].email) in r.value
  {
    if !Truthy(query) then Fail(BAD_REQUEST)
    else
      Ok(OK, set u | u in db.users && ContainsIgnoringCase(db.users[u].email, query.value) :: UserRef(u, db.users[u].email))
  }

  /** The case of the query does not matter. */
  lemma SearchIgnoresCaseOfQuery(db: Store, q1: string, q2: string)
    requires Lower(q1) == Lower(q2)
    ensures SearchUsers(db, Some(q1)) == SearchUsers(db, Some(q2))
  {
    assert |q1| == |q2| == |Lower(q1)|;
    if q1 != "" {
      var s1, s2 := SearchUsers(db, Some(q1)).value, SearchUsers(db, Some(q2)).value;
      forall ref | ref in s1 ensures ref in s2 {
        assert ContainsIgnoringCase(ref.email, q2);
      }
      forall ref | ref in s2 ensures ref in s1 {
        assert ContainsIgnoringCase(ref.email, q1);
      }
      assert s1 == s2;
    }
  }

  /** Searching for a user's own email, in any case, finds that user. */
  lemma SearchFindsOwnEmail(db: Store, id: Id, query: string)
    requires id in db.users && query != ""
    requires Lower(query) == Lower(db.users[id].email)
    ensures SearchUsers(db, Some(query)).Ok?
    ensures UserRef(id, db.users[id].email) in SearchUsers(db, Some(query)).value
  {
    ContainsItselfIgnoringCase(db.users[id].email, query);
  }

  /** `getUserById`: 404 when absent, otherwise only `{ id, email }`. */
  function GetUserById(db: Store, id: Id): (r: Reply<UserRef>)
    reads db
    ensures r.Fail? <==> id !in db.users
    ensures r.Fail? ==> r.code == NOT_FOUND
    ensures r.Ok? ==> r.code == OK && r.value.id == id && r.value.email == db.users[id].email
  {
    if id !in db.users then Fail(NOT_FOUND) else Ok(OK, UserRef(id, db.users[id].email))
  }

  /** Two user tables that differ at most in the stored password hashes. */
  ghost predicate SameButHashes(a: map<Id, User>, b: map<Id, User>) {
    a.Keys == b.Keys && forall u | u in a :: a[u].name == b[u].name && a[u].email == b[u].email
  }

  /**
   * No directory response depends on a password hash: stores that differ
   * only in the hashes answer every profile and lookup alike ...
   */
  lemma LookupsHideHashes(db1: Store, db2: Store, id: Id)
    requires SameButHashes(db1.users, db2.users)
    ensures GetProfile(db1, id) == GetProfile(db2, id)
    ensures GetUserById(db1, id) == GetUserById(db2, id)
  {
  }

  /** ... and every search alike. */
  lemma SearchHidesHashes(db1: Store, db2: Store, query: Option<string>)
    requires SameButHashes(db1.users, db2.users)
    ensures SearchUsers(db1, query) == SearchUsers(db2, query)
  {
    if Truthy(query) {
      var s1, s2 := SearchUsers(db1, query).value, SearchUsers(db2, query).value;
      forall ref | ref in s1 ensures ref in s2 {
        assert ref == UserRef(ref.id, db2.users[ref.id].email);
      }
      forall ref | ref in s2 ensures ref in s1 {
        assert ref == UserRef(ref.id, db1.users[ref.id].email);
      }
      assert s1 == s2;
    }
  }
}
