/** The authentication orchestrator: login, registration with the
    first-user bootstrap rule, TOTP enrolment and verification, and the
    issue and redemption of recovery codes, over the user store. */
module Auth {
  import opened Wrappers
  import opened Users
  import opened RecoveryCodes

  /** The errors the service throws. AuthenticationError and ForbiddenError
      are the two it raises itself; MissingUser stands for the fault raised
      when an operation dereferences the absent result of a lookup by id. */
  datatype AuthError = AuthenticationError | ForbiddenError | MissingUser

  /** Registration input. `role` is the role the stored document takes when
      the input is stored unchanged. */
  datatype RegisterInput = RegisterInput(email: string, username: string, password: string, role: Role)

  /** What the TOTP secret generator hands back for one enrolment. */
  datatype GeneratedSecret = GeneratedSecret(base32: string, otpauthUrl: string)

  /** The result of TOTP enrolment: the rendered provisioning URI and the
      raw secret for manual entry. */
  datatype TOTPSetup = TOTPSetup(qrcode: string, secretKey: string)

  /** Appended to the provisioning URI before it is rendered. */
  const IssuerSuffix := "&issuer=Yancey%20Inc."

  predicate EmailTaken(users: map<UserId, User>, email: string) {
    exists id :: id in users && users[id].email == email
  }

  predicate UsernameTaken(users: map<UserId, User>, username: string) {
    exists id :: id in users && users[id].username == username
  }

  /** Each record sits under its own id, ids below the next one to be handed
      out, and no two users share an email or a username. */
  ghost predicate WellFormed(users: map<UserId, User>, nextId: UserId) {
    && (forall id :: id in users ==> users[id].id == id && id < nextId)
    && (forall a, b :: a in users && b in users && a != b ==>
          users[a].email != users[b].email && users[a].username != users[b].username)
  }

  /** The document `create` stores for a registration, given the number of
      users already stored: the input with its password hashed, TOTP not yet
      enrolled and no recovery codes; on an empty store the role becomes
      SUPERUSER, on any other the input's role is kept. */
  function NewUser(id: UserId, input: RegisterInput, count: nat, hashPassword: string -> string): (u: User)
    ensures u.id == id && u.email == input.email && u.username == input.username
    ensures u.password == hashPassword(input.password)
    ensures u.role == SuperUser <==> count == 0 || input.role == SuperUser
    ensures count > 0 ==> u.role == input.role
    ensures u.twoFactorSecret == "" && !u.isTOTP && u.recoveryCodes == []
  {
    User(id, input.email, input.username, hashPassword(input.password),
         if count == 0 then SuperUser else input.role, "", false, [])
  }

  /** Rewriting a record without touching its id, email or username keeps
      the store well formed. */
  lemma UpdateKeepsWellFormed(users: map<UserId, User>, nextId: UserId, u: User)
    requires WellFormed(users, nextId)
    requires u.id in users && u.email == users[u.id].email && u.username == users[u.id].username
    ensures WellFormed(users[u.id := u], nextId)
  {
  }

  class AuthService {
    /** The user collection, by id. */
    var users: map<UserId, User>
    /** The id the store gives the next created document. */
    var nextId: UserId
    /** The injected token signer. */
    const sign: Claims -> Token
    /** The password check of the user document: plain password against the
        stored hash. */
    const isValidPassword: (string, string) -> bool
    /** The hashing the store applies to a password before it saves a new
        document. */
    const hashPassword: string -> string

    ghost predicate Valid()
      reads this
    {
      WellFormed(users, nextId)
    }

    /** Some user holds this email and its password check passes. */
    ghost predicate CredentialsMatch(email: string, password: string)
      reads this
    {
      exists id :: id in users && users[id].email == email && isValidPassword(password, users[id].password)
    }

    /** The service attaches to an existing store, which may already hold
        users. */
    constructor (sign: Claims -> Token, isValidPassword: (string, string) -> bool,
                 hashPassword: string -> string, users: map<UserId, User>, nextId: UserId)
      requires WellFormed(users, nextId)
      ensures Valid()
      ensures this.users == users && this.nextId == nextId
      ensures this.sign == sign && this.isValidPassword == isValidPassword && this.hashPassword == hashPassword
    {
      this.users := users;
      this.nextId := nextId;
      this.sign := sign;
      this.isValidPassword := isValidPassword;
      this.hashPassword := hashPassword;
    }

    /** The store's lookup by email. */
    method FindOneByEmail(email: string) returns (u: Option<User>)
      requires Valid()
      ensures u.Some? <==> EmailTaken(users, email)
      ensures u.Some? ==> u.value.id in users && users[u.value.id] == u.value && u.value.email == email
    {
      if EmailTaken(users, email) {
        var id :| id in users && users[id].email == email;
        u := Some(users[id]);
      } else {
        u := None;
      }
    }

    /** The store's lookup by username. */
    method FindOneByUserName(username: string) returns (u: Option<User>)
      requires Valid()
      ensures u.Some? <==> UsernameTaken(users, username)
      ensures u.Some? ==> u.value.id in users && users[u.value.id] == u.value && u.value.username == username
    {
      if UsernameTaken(users, username) {
        var id :| id in users && users[id].username == username;
        u := Some(users[id]);
      } else {
        u := None;
      }
    }

    /** Succeeds with the stored user exactly when a user holds the email
      and the password check passes; an absent user and a wrong password
      give the same error. */
    method ValidateUser(email: string, password: string) returns (r: Result<User, AuthError>)
      requires Valid()
      ensures r.Success? <==> CredentialsMatch(email, password)
      ensures r.Success? ==> r.value.id in users && users[r.value.id] == r.value && r.value.email == email
      ensures r.Failure? ==> r.error == AuthenticationError
    {
      var user := FindOneByEmail(email);
      if user.Some? && isValidPassword(password, user.value.password) {
        return Success(user.value);
      }
      r := Failure(AuthenticationError);
    }

    /** Login leaves the store as it is (the method modifies nothing); it
      answers the sanitized response for the user holding the email exactly
      when the credentials match, and AuthenticationError otherwise. */
    method Login(email: string, password: string) returns (r: Result<Authorized, AuthError>)
      requires Valid()
      ensures r.Success? <==> CredentialsMatch(email, password)
      ensures r.Success? ==> exists id :: id in users && users[id].email == email &&
                                          r.value == GenerateJWT(email, users[id], sign)
      ensures r.Failure? ==> r.error == AuthenticationError
    {
      var res := ValidateUser(email, password);
      if res.Failure? {
        return Failure(res.error);
      }
      r := Success(GenerateJWT(email, res.value, sign));
    }

    /** Registration: refused when the email or the username is already
      held, whichever collides, with nothing created; otherwise exactly one
      user is added, SUPERUSER when the store was empty and as given
      otherwise, and its sanitized response is returned. */
    method Register(input: RegisterInput) returns (r: Result<Authorized, AuthError>)
      requires Valid()
      modifies this
      ensures Valid()
      ensures EmailTaken(old(users), input.email) || UsernameTaken(old(users), input.username) ==>
                r == Failure(ForbiddenError) && users == old(users) && nextId == old(nextId)
      ensures !EmailTaken(old(users), input.email) && !UsernameTaken(old(users), input.username) ==>
                && old(nextId) !in old(users)
                && users == old(users)[old(nextId) := NewUser(old(nextId), input, |old(users)|, hashPassword)]
                && |users| == |old(users)| + 1
                && (users[old(nextId)].role == SuperUser <==> |old(users)| == 0 || input.role == SuperUser)
                && r == Success(GenerateJWT(input.email, users[old(nextId)], sign))
                && (forall p :: CredentialsMatch(input.email, p) <==> isValidPassword(p, hashPassword(input.password)))
    {
      var curEmail := FindOneByEmail(input.email);
      var curUser := FindOneByUserName(input.username);
      if curUser.Some? || curEmail.Some? {
        return Failure(ForbiddenError);
      }
      var count := |users|;
      var res := NewUser(nextId, input, count, hashPassword);
      assert nextId !in users;
      users := users[nextId := res];
      nextId := nextId + 1;
      r := Success(GenerateJWT(input.email, res, sign));
    }

    /** TOTP enrolment: stores the freshly generated secret on the user,
      overwriting any earlier one and leaving `isTOTP` and every other field
      and user as they were, and returns that same secret together with the
      rendered provisioning URI. The store is not consulted first: an
      unknown id changes nothing and still yields a secret. */
    method CreateTOTP(userId: UserId, email: string, generateSecret: string -> GeneratedSecret,
                      generateQRCode: string -> string) returns (setup: TOTPSetup)
      requires Valid()
      modifies this
      ensures Valid() && nextId == old(nextId)
      ensures setup.secretKey == generateSecret(email).base32
      ensures setup.qrcode == generateQRCode(generateSecret(email).otpauthUrl + IssuerSuffix)
      ensures userId in old(users) ==>
                users == old(users)[userId := old(users)[userId].(twoFactorSecret := setup.secretKey)]
      ensures userId !in old(users) ==> users == old(users)
    {
      var generated := generateSecret(email);
      if userId in users {
        var updated := users[userId].(twoFactorSecret := generated.base32);
        UpdateKeepsWellFormed(users, nextId, updated);
        users := users[userId := updated];
      }
      var qrcode := generateQRCode(generated.otpauthUrl + IssuerSuffix);
      setup := TOTPSetup(qrcode, generated.base32);
    }

    /** TOTP verification against the stored secret. A failed check raises
      ForbiddenError and changes nothing; a passed one makes sure `isTOTP`
      is set (a second success changes nothing more) and answers the
      response built from the record as loaded before that write. */
    method ValidateTOTP(userId: UserId, token: string, totpVerify: (string, string) -> bool)
      returns (r: Result<Authorized, AuthError>)
      requires Valid()
      modifies this
      ensures Valid() && nextId == old(nextId)
      ensures userId !in old(users) ==> r == Failure(MissingUser) && users == old(users)
      ensures userId in old(users) && !totpVerify(old(users)[userId].twoFactorSecret, token) ==>
                r == Failure(ForbiddenError) && users == old(users)
      ensures userId in old(users) && totpVerify(old(users)[userId].twoFactorSecret, token) ==>
                && users == old(users)[userId := old(users)[userId].(isTOTP := true)]
                && (old(users)[userId].isTOTP ==> users == old(users))
                && r == Success(GenerateJWT(old(users)[userId].email, old(users)[userId], sign))
    {
      if userId !in users {
        return Failure(MissingUser);
      }
      var res := users[userId];
      var verified := totpVerify(res.twoFactorSecret, token);
      if verified {
        if !res.isTOTP {
          UpdateKeepsWellFormed(users, nextId, res.(isTOTP := true));
          users := users[userId := res.(isTOTP := true)];
        }
        return Success(GenerateJWT(res.email, res, sign));
      }
      r := Failure(ForbiddenError);
    }

    /** Replaces the user's whole list of recovery codes with the generated
      batch, leaves every other field and user unchanged, and returns the
      updated record; None when no user has that id. */
    method CreateRecoveryCodes(userId: UserId, codes: seq<string>) returns (res: Option<User>)
      requires Valid()
      modifies this
      ensures Valid() && nextId == old(nextId)
      ensures userId in old(users) ==>
                && users == old(users)[userId := old(users)[userId].(recoveryCodes := codes)]
                && res == Some(users[userId])
      ensures userId !in old(users) ==> users == old(users) && res == None
    {
      if userId !in users {
        return None;
      }
      var updated := users[userId].(recoveryCodes := codes);
      UpdateKeepsWellFormed(users, nextId, updated);
      users := users[userId := updated];
      res := Some(updated);
    }

    /** Recovery-code redemption. A code not in the list raises
      ForbiddenError and changes nothing; a listed code has exactly its first
      occurrence removed, the other codes kept in order, and the response of
      the user is returned. A code that was listed once cannot be redeemed
      again. */
    method ValidateRecoveryCode(userId: UserId, token: string) returns (r: Result<Authorized, AuthError>)
      requires Valid()
      modifies this
      ensures Valid() && nextId == old(nextId)
      ensures userId !in old(users) ==> r == Failure(MissingUser) && users == old(users)
      ensures userId in old(users) && token !in old(users)[userId].recoveryCodes ==>
                r == Failure(ForbiddenError) && users == old(users)
      ensures userId in old(users) && token in old(users)[userId].recoveryCodes ==>
                && users == old(users)[userId := old(users)[userId].(recoveryCodes :=
                     Splice(old(users)[userId].recoveryCodes, FirstIndex(old(users)[userId].recoveryCodes, token)))]
                && Redeem(old(users)[userId].recoveryCodes, token) == Some(users[userId].recoveryCodes)
                && r == Success(GenerateJWT(old(users)[userId].email, old(users)[userId], sign))
                && (multiset(old(users)[userId].recoveryCodes)[token] == 1 ==>
                      token !in users[userId].recoveryCodes)
    {
      if userId !in users {
        return Failure(MissingUser);
      }
      var recoveryCodes := users[userId].recoveryCodes;
      var index := IndexOf(recoveryCodes, token);
      if index != -1 {
        recoveryCodes := Splice(recoveryCodes, index);
        var res := users[userId].(recoveryCodes := recoveryCodes);
        UpdateKeepsWellFormed(users, nextId, res);
        users := users[userId := res];
        return Success(GenerateJWT(res.email, res, sign));
      }
      r := Failure(ForbiddenError);
    }
  }
}
