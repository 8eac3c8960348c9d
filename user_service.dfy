/**
 * The user service: registration and lookup by email over a collection of
 * user records.
 *
 * The document store is the field `users` of a `UserStore` object, in
 * insertion order. Decoding the request body, the reply of the salt service,
 * the outcome of a write and of a read, and the MD5 + hex digest are all
 * supplied by the caller: `None` stands for a failed decode or a failed
 * downstream call, a `true` failure flag for a failed store call, and the
 * digest is a total function `string -> string` about which nothing is assumed.
 */
module UserService {
  import opened Wrappers
  import opened EmailValidation

  const StatusOK := 200
  const StatusCreated := 201
  const StatusBadRequest := 400
  const StatusNotFound := 404
  const StatusInternalServerError := 500

  /** A stored user document (the store-assigned identifier is not modelled). */
  datatype User = User(email: string, salt: string, password: string)

  /** Is some record's email exactly `email`? */
  ghost predicate HasEmail(users: seq<User>, email: string) {
    exists i :: 0 <= i < |users| && users[i].email == email
  }

  /** The intended invariant of the collection: no email is stored twice. */
  ghost predicate EmailsDistinct(users: seq<User>) {
    forall i, j :: 0 <= i < j < |users| ==> users[i].email != users[j].email
  }

  /** CountDocuments with the filter {email: email}. */
  function CountEmail(users: seq<User>, email: string): (n: nat)
    ensures n <= |users|
    ensures n > 0 <==> HasEmail(users, email)
  {
    if |users| == 0 then 0
    else
      assert forall i :: 0 < i < |users| ==> users[i] == users[1..][i - 1];
      CountEmail(users[1..], email) + if users[0].email == email then 1 else 0
  }

  /** FindOne with the filter {email: email}: the first match in store order. */
  function FindFirst(users: seq<User>, email: string): (r: Option<User>)
    ensures r.Some? ==> r.value in users && r.value.email == email
    ensures r.None? <==> !HasEmail(users, email)
  {
    if |users| == 0 then None
    else if users[0].email == email then Some(users[0])
    else
      assert forall i :: 0 < i < |users| ==> users[i] == users[1..][i - 1];
      FindFirst(users[1..], email)
  }

  /** What one registration request yields. */
  datatype Outcome = Outcome(status: int, saltRequested: bool, users: seq<User>)

  /**
   * createUserHandler as a function of the collection before the request:
   * the status, whether the salt service was called, and the collection after.
   * The gates run in order: decode, validate, duplicate check, salt, write.
   */
  function CreateUser(users: seq<User>, body: Option<User>, saltReply: Option<string>,
                      saveFails: bool, digest: string -> string): (r: Outcome)
    ensures r.status == StatusBadRequest || r.status == StatusInternalServerError || r.status == StatusCreated
    ensures r.status != StatusCreated ==> r.users == users
    ensures !r.saltRequested ==> r.status == StatusBadRequest
    ensures r.status == StatusCreated ==>
      body.Some? && IsValidEmail(body.value.email) && !HasEmail(users, body.value.email) &&
      saltReply.Some? && !saveFails &&
      r.users == users + [User(body.value.email, saltReply.value, digest(saltReply.value + body.value.password))]
  {
    if body.None? then Outcome(StatusBadRequest, false, users)
    else if !IsValidEmail(body.value.email) then Outcome(StatusBadRequest, false, users)
    else if CountEmail(users, body.value.email) > 0 then Outcome(StatusBadRequest, false, users)
    else if saltReply.None? then Outcome(StatusInternalServerError, true, users)
    else
      var salt := saltReply.value;
      var stored := User(body.value.email, salt, digest(salt + body.value.password));
      if saveFails then Outcome(StatusInternalServerError, true, users)
      else Outcome(StatusCreated, true, users + [stored])
  }

  /** A malformed body is a client error; no salt is fetched and nothing is written. */
  lemma MalformedBodyRejected(users: seq<User>, saltReply: Option<string>, saveFails: bool,
                              digest: string -> string)
    ensures CreateUser(users, None, saltReply, saveFails, digest) == Outcome(StatusBadRequest, false, users)
  {
  }

  /** An invalid email is a client error; no salt is fetched and nothing is written. */
  lemma InvalidEmailRejected(users: seq<User>, body: User, saltReply: Option<string>, saveFails: bool,
                             digest: string -> string)
    requires !IsValidEmail(body.email)
    ensures CreateUser(users, Some(body), saltReply, saveFails, digest) == Outcome(StatusBadRequest, false, users)
  {
  }

  /** A valid email already stored is a client error and nothing is written. */
  lemma DuplicateEmailRejected(users: seq<User>, body: User, saltReply: Option<string>, saveFails: bool,
                               digest: string -> string)
    requires IsValidEmail(body.email) && HasEmail(users, body.email)
    ensures CreateUser(users, Some(body), saltReply, saveFails, digest) == Outcome(StatusBadRequest, false, users)
  {
  }

  /** A failed salt request, after the client gates pass, is a server error and nothing is written. */
  lemma SaltFailureIsServerError(users: seq<User>, body: User, saveFails: bool, digest: string -> string)
    requires IsValidEmail(body.email) && !HasEmail(users, body.email)
    ensures CreateUser(users, Some(body), None, saveFails, digest) == Outcome(StatusInternalServerError, true, users)
  {
  }

  /** A failed write is a server error and leaves the collection as it was. */
  lemma SaveFailureIsServerError(users: seq<User>, body: User, salt: string, digest: string -> string)
    requires IsValidEmail(body.email) && !HasEmail(users, body.email)
    ensures CreateUser(users, Some(body), Some(salt), true, digest) == Outcome(StatusInternalServerError, true, users)
  {
  }

  /**
   * When every gate passes the status is 201 and exactly one record is
   * appended: the email, the salt, and the digest of salt + plaintext.
   */
  lemma RegistrationSucceeds(users: seq<User>, body: User, salt: string, digest: string -> string)
    requires IsValidEmail(body.email) && !HasEmail(users, body.email)
    ensures CreateUser(users, Some(body), Some(salt), false, digest) ==
      Outcome(StatusCreated, true, users + [User(body.email, salt, digest(salt + body.password))])
  {
  }

  /** Registration never stores an email twice: it keeps the invariant. */
  lemma CreateUserKeepsEmailsDistinct(users: seq<User>, body: Option<User>,
                                       saltReply: Option<string>, saveFails: bool,
                                       digest: string -> string)
    requires EmailsDistinct(users)
    ensures EmailsDistinct(CreateUser(users, body, saltReply, saveFails, digest).users)
  {
  }

  /** In a collection with distinct emails the first match is the only one. */
  lemma FindFirstIsUnique(users: seq<User>, email: string, k: nat)
    requires EmailsDistinct(users)
    requires k < |users| && users[k].email == email
    ensures FindFirst(users, email) == Some(users[k])
  {
  }

  /** The reply of getUserHandler: a status and, for 200, the encoded record. */
  datatype Response = Response(status: int, body: Option<User>)

  /** The reply of getUserByEmail: the document, ErrNoDocuments, or another store error. */
  datatype Lookup = Found(user: User) | NoDocuments | StoreError

  /** The document store of the user service, updated in place. */
  class UserStore {
    var users: seq<User>

    constructor (initial: seq<User>)
      ensures users == initial
    {
      users := initial;
    }

    /** isDuplicateEmail: true iff some stored record has exactly this email. */
    function IsDuplicateEmail(email: string): (dup: bool)
      reads this
      ensures dup <==> HasEmail(users, email)
    {
      CountEmail(users, email) > 0
    }

    /** saveUserToMongo: appends the record unless the store call fails. */
    method SaveUserToMongo(user: User, fails: bool) returns (err: bool)
      modifies this
      ensures err == fails
      ensures users == if fails then old(users) else old(users) + [user]
    {
      if fails {
        return true;
      }
      users := users + [user];
      return false;
    }

    /**
     * getUserByEmail: a stored record with exactly this email, NoDocuments
     * when there is none, StoreError when the store call fails.
     */
    function GetUserByEmail(email: string, storeFails: bool): (r: Lookup)
      reads this
      ensures storeFails <==> r == StoreError
      ensures r == NoDocuments <==> !storeFails && !HasEmail(users, email)
      ensures r.Found? ==> r.user in users && r.user.email == email
    {
      if storeFails then StoreError
      else match FindFirst(users, email)
        case None => NoDocuments
        case Some(u) => Found(u)
    }

    /** getUserHandler: 404 when absent, 500 on a store error, 200 with the record otherwise. */
    function GetUserHandler(email: string, storeFails: bool): (resp: Response)
      reads this
      ensures resp.status == StatusInternalServerError <==> storeFails
      ensures resp.status == StatusNotFound <==> !storeFails && !HasEmail(users, email)
      ensures resp.status == StatusOK <==> !storeFails && HasEmail(users, email)
      ensures resp.body.Some? <==> resp.status == StatusOK
      ensures resp.body.Some? ==> resp.body.value in users && resp.body.value.email == email
    {
      match GetUserByEmail(email, storeFails)
      case StoreError => Response(StatusInternalServerError, None)
      case NoDocuments => Response(StatusNotFound, None)
      case Found(u) => Response(StatusOK, Some(u))
    }

    /**
     * createUserHandler. Returns the status and whether the salt service was
     * called; the record is built step by step as in the handler (salt first,
     * then the digest in place of the plaintext) and written through
     * SaveUserToMongo.
     */
    method CreateUserHandler(body: Option<User>, saltReply: Option<string>, saveFails: bool,
                             digest: string -> string)
      returns (status: int, saltRequested: bool)
      modifies this
      ensures Outcome(status, saltRequested, users) == CreateUser(old(users), body, saltReply, saveFails, digest)
      ensures EmailsDistinct(old(users)) ==> EmailsDistinct(users)
    {
      if body.None? {
        return StatusBadRequest, false;
      }
      var user := body.value;
      if !IsValidEmail(user.email) {
        return StatusBadRequest, false;
      }
      if IsDuplicateEmail(user.email) {
        return StatusBadRequest, false;
      }
      saltRequested := true;
      if saltReply.None? {
        return StatusInternalServerError, saltRequested;
      }
      var salt := saltReply.value;
      user := user.(salt := salt);
      user := user.(password := digest(salt + user.password));
      var err := SaveUserToMongo(user, saveFails);
      if err {
        return StatusInternalServerError, saltRequested;
      }
      status := StatusCreated;
      if EmailsDistinct(old(users)) {
        CreateUserKeepsEmailsDistinct(old(users), body, saltReply, saveFails, digest);
      }
    }
  }

  /** Looking up an email absent from the collection, after appending a record with it, finds that record. */
  lemma {:induction false} FindFirstAppended(users: seq<User>, u: User, email: string)
    requires !HasEmail(users, email) && u.email == email
    ensures FindFirst(users + [u], email) == Some(u)
  {
    if |users| > 0 {
      assert (users + [u])[1..] == users[1..] + [u];
      assert !HasEmail(users[1..], email) by {
        forall i | 0 <= i < |users| - 1 ensures users[1..][i].email != email {
          assert users[1..][i] == users[i + 1];
        }
      }
      FindFirstAppended(users[1..], u, email);
    }
  }

  /**
   * After a successful registration, getUserHandler for that email answers
   * 200 with the new record, whose password is the digest of salt + plaintext.
   */
  lemma RegisterThenLookup(store: UserStore, before: seq<User>, body: User, salt: string,
                           digest: string -> string)
    requires IsValidEmail(body.email) && !HasEmail(before, body.email)
    requires store.users == CreateUser(before, Some(body), Some(salt), false, digest).users
    ensures store.GetUserHandler(body.email, false) ==
      Response(StatusOK, Some(User(body.email, salt, digest(salt + body.password))))
  {
    FindFirstAppended(before, User(body.email, salt, digest(salt + body.password)), body.email);
  }

  /**
   * Registering the same email twice in a row: the second request is a client
   * error and the collection still holds one record for it.
   */
  lemma SecondRegistrationRejected(users: seq<User>, first: User, second: User, salt1: string,
                                   saltReply2: Option<string>, saveFails2: bool, digest: string -> string)
    requires IsValidEmail(first.email) && !HasEmail(users, first.email)
    requires second.email == first.email
    ensures var after := CreateUser(users, Some(first), Some(salt1), false, digest).users;
      var r2 := CreateUser(after, Some(second), saltReply2, saveFails2, digest);
      r2.status == StatusBadRequest && r2.users == after && CountEmail(after, first.email) == 1
  {
    var after := CreateUser(users, Some(first), Some(salt1), false, digest).users;
    assert after[|users|].email == first.email;
    CountAppend(users, User(first.email, salt1, digest(salt1 + first.password)), first.email);
  }

  /** Counting over an appended record adds one exactly when it matches. */
  lemma {:induction false} CountAppend(users: seq<User>, u: User, email: string)
    ensures CountEmail(users + [u], email) == CountEmail(users, email) + if u.email == email then 1 else 0
  {
    if |users| > 0 {
      assert (users + [u])[1..] == users[1..] + [u];
      CountAppend(users[1..], u, email);
    }
  }
}
