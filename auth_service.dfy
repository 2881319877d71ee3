/**
 * AuthService: credential validation and the refresh-token session state
 * machine. Each employee row has one refresh-token slot holding a bcrypt digest:
 * login fills it, a successful refresh replaces it, logout clears it.
 *
 * The transitions are pure functions of the table (`ValidateOutcome`,
 * `LoginOutcome`, `RefreshOutcome`; logout is `SetRefreshToken(rows, id, None)`),
 * and the class's methods, which read and write the repository, are proved to
 * follow them.
 */
module Auth {
  import opened Wrappers
  import opened Entities
  import opened Repository
  import opened HttpErrors
  import opened AppConfig
  import opened Crypto

  const ACCESS_TOKEN_LIFETIME: int := 900
  const ACCESS_DENIED: string := "Access Denied"
  const ACCOUNT_INACTIVE: string := "Your account is inactive. Please contact administrator."

  /** The injected collaborators: bcrypt, the JWT service and the configuration. */
  datatype Env = Env(bcrypt: Bcrypt, jwt: Jwt, config: Config)

  /** A transition's result and the table after it. */
  datatype Transition = Transition(result: Result<AuthResponse, HttpError>, rows: seq<Employee>)

  /** The claims both tokens carry. */
  function PayloadOf(e: Employee): Claims {
    Claims(e.email, e.id, e.empId)
  }

  /** The refresh secret and lifetime, each falling back to its default when unset. */
  function RefreshKeyOf(cfg: Config): (k: SigningKey)
    ensures k == RefreshKey(OrDefault(cfg.jwtRefreshSecret, DEFAULT_REFRESH_SECRET),
                            OrDefault(cfg.jwtRefreshExpiration, DEFAULT_REFRESH_EXPIRATION))
    ensures k.secret != "" && k.expiresIn != ""
    ensures cfg.jwtRefreshSecret.None? ==> k.secret == DEFAULT_REFRESH_SECRET
    ensures cfg.jwtRefreshExpiration.None? ==> k.expiresIn == DEFAULT_REFRESH_EXPIRATION
  {
    RefreshKey(OrDefault(cfg.jwtRefreshSecret, DEFAULT_REFRESH_SECRET),
               OrDefault(cfg.jwtRefreshExpiration, DEFAULT_REFRESH_EXPIRATION))
  }

  /** `employee.refreshToken` is truthy: a session is live. */
  predicate HasSession(slot: Option<string>) {
    slot.Some? && slot.value != ""
  }

  /**
   * `validateEmployee(email, password)`: `Success(None)` is the source's null,
   * `Failure` its ForbiddenException. The active flag is checked before the password.
   */
  function ValidateOutcome(env: Env, rows: seq<Employee>, email: string, password: string): (r: Result<Option<Employee>, HttpError>)
    ensures (forall e :: e in rows ==> e.email != email) ==> r == Success(None)
    ensures r.Failure? ==> r.error == Forbidden(ACCOUNT_INACTIVE)
    ensures r.Success? && r.value.Some? ==>
      var e := r.value.value; e in rows && e.email == email && e.isActive && env.bcrypt.compare(password, e.password)
    ensures FindByEmail(rows, email).Some? ==> (r.Failure? <==> !FindByEmail(rows, email).value.isActive)
    ensures (FindByEmail(rows, email).Some? && FindByEmail(rows, email).value.isActive
             && !env.bcrypt.compare(password, FindByEmail(rows, email).value.password)) ==> r == Success(None)
    ensures (FindByEmail(rows, email).Some? && FindByEmail(rows, email).value.isActive
             && env.bcrypt.compare(password, FindByEmail(rows, email).value.password)) ==> r == Success(FindByEmail(rows, email))
  {
    match FindByEmail(rows, email)
    case None => Success(None)
    case Some(e) =>
      if !e.isActive then Failure(Forbidden(ACCOUNT_INACTIVE))
      else if !env.bcrypt.compare(password, e.password) then Success(None)
      else Success(Some(e))
  }

  /** The token pair and response issued to `e` at second `now`, with the digest of the refresh token stored under `salt`. */
  function Issue(env: Env, rows: seq<Employee>, e: Employee, now: nat, salt: nat): Transition {
    var payload := PayloadOf(e);
    var accessToken := env.jwt.sign(payload, AccessKey, now);
    var refreshToken := env.jwt.sign(payload, RefreshKeyOf(env.config), now);
    Transition(Success(AuthResponse(accessToken, refreshToken, ToResponse(e), ACCESS_TOKEN_LIFETIME)),
               SetRefreshToken(rows, e.id, Some(env.bcrypt.hash(refreshToken, salt))))
  }

  /**
   * `login(employee)`: always succeeds; overwrites the employee's slot with the
   * digest of the refresh token it returns, and touches nothing else.
   */
  function LoginOutcome(env: Env, rows: seq<Employee>, e: Employee, now: nat, salt: nat): (t: Transition)
    ensures t.result.Success?
    ensures t.result.value.expiresIn == 900
    ensures t.result.value.employee == ToResponse(e)
    ensures t.rows == SetRefreshToken(rows, e.id, Some(env.bcrypt.hash(t.result.value.refreshToken, salt)))
    ensures t.result.value.refreshToken == env.jwt.sign(Claims(e.email, e.id, e.empId), RefreshKeyOf(env.config), now)
    ensures t.result.value.accessToken == env.jwt.sign(Claims(e.email, e.id, e.empId), AccessKey, now)
  {
    Issue(env, rows, e, now, salt)
  }

  /**
   * `refreshTokens(employeeId, refreshToken)`. Checks, in order: the employee
   * exists and has a live session (else 401), is active (else 403), and the
   * presented token verifies against the slot (else 401). Every failure leaves
   * the table as it was; a success is exactly a login of the stored employee.
   */
  function RefreshOutcome(env: Env, rows: seq<Employee>, employeeId: int, token: string, now: nat, salt: nat): (t: Transition)
    ensures t.result.Failure? ==> t.rows == rows
    ensures FindById(rows, employeeId).None? ==> t.result == Failure(Unauthorized(ACCESS_DENIED))
    ensures FindById(rows, employeeId).Some? ==>
      var e := FindById(rows, employeeId).value;
      && (!HasSession(e.refreshToken) ==> t.result == Failure(Unauthorized(ACCESS_DENIED)))
      && (HasSession(e.refreshToken) && !e.isActive ==> t.result == Failure(Forbidden(ACCOUNT_INACTIVE)))
      && (HasSession(e.refreshToken) && e.isActive && !env.bcrypt.compare(token, e.refreshToken.value) ==>
            t.result == Failure(Unauthorized(ACCESS_DENIED)))
    ensures t.result.Success? <==>
      && FindById(rows, employeeId).Some?
      && var e := FindById(rows, employeeId).value;
      && HasSession(e.refreshToken) && e.isActive && env.bcrypt.compare(token, e.refreshToken.value)
    ensures t.result.Success? ==> t == LoginOutcome(env, rows, FindById(rows, employeeId).value, now, salt)
  {
    match FindById(rows, employeeId)
    case None => Transition(Failure(Unauthorized(ACCESS_DENIED)), rows)
    case Some(e) =>
      if !HasSession(e.refreshToken) then Transition(Failure(Unauthorized(ACCESS_DENIED)), rows)
      else if !e.isActive then Transition(Failure(Forbidden(ACCOUNT_INACTIVE)), rows)
      else if !env.bcrypt.compare(token, e.refreshToken.value) then Transition(Failure(Unauthorized(ACCESS_DENIED)), rows)
      else Issue(env, rows, e, now, salt)
  }

  /** Under the table's integrity, validation yields the stored employee exactly when it exists, is active and the password verifies. */
  lemma ValidateExactly(env: Env, rows: seq<Employee>, nextId: int, email: string, password: string, e: Employee)
    requires TableInvariant(rows, nextId)
    ensures ValidateOutcome(env, rows, email, password) == Success(Some(e)) <==>
      e in rows && e.email == email && e.isActive && env.bcrypt.compare(password, e.password)
  {
    if e in rows && e.email == email {
      UniqueRowFound(rows, nextId, e);
    }
  }

  /** An inactive account is refused with 403 whatever password is given, right or wrong. */
  lemma InactiveRefusedBeforePassword(env: Env, rows: seq<Employee>, nextId: int, e: Employee, password: string)
    requires TableInvariant(rows, nextId)
    requires e in rows && !e.isActive
    ensures ValidateOutcome(env, rows, e.email, password) == Failure(Forbidden(ACCOUNT_INACTIVE))
  {
    UniqueRowFound(rows, nextId, e);
  }

  /** An empty slot is reported as 401 before the active flag is looked at. */
  lemma NoSessionBeatsInactive(env: Env, rows: seq<Employee>, nextId: int, e: Employee, token: string, now: nat, salt: nat)
    requires TableInvariant(rows, nextId)
    requires e in rows && !HasSession(e.refreshToken) && !e.isActive
    ensures RefreshOutcome(env, rows, e.id, token, now, salt) == Transition(Failure(Unauthorized(ACCESS_DENIED)), rows)
  {
    UniqueRowFound(rows, nextId, e);
  }

  /**
   * With bcrypt's round trip, the refresh token a login returns is accepted by
   * the next refresh of an active employee.
   */
  lemma LoginThenRefreshSucceeds(env: Env, rows: seq<Employee>, nextId: int, e: Employee, now: nat, salt: nat, later: nat, salt2: nat)
    requires HashVerifies(env.bcrypt)
    requires TableInvariant(rows, nextId)
    requires e in rows && e.isActive
    ensures var login := LoginOutcome(env, rows, e, now, salt);
      RefreshOutcome(env, login.rows, e.id, login.result.value.refreshToken, later, salt2).result.Success?
  {
    var login := LoginOutcome(env, rows, e, now, salt);
    var token := login.result.value.refreshToken;
    var digest := env.bcrypt.hash(token, salt);
    UniqueRowFound(rows, nextId, e);
    FindByIdAfterUpdate(rows, e.id, Some(digest), e.id);
    assert FindById(login.rows, e.id) == Some(e.(refreshToken := Some(digest)));
    assert digest != "" && env.bcrypt.compare(token, digest);
  }

  /**
   * Rotation: once a refresh has replaced token `t` by a different token, `t`
   * is refused with 401 and nothing changes. This needs the idealised
   * `HashBinds`, which bcrypt does not guarantee.
   */
  lemma StaleTokenRefused(env: Env, rows: seq<Employee>, id: int, t: string, now: nat, salt: nat, later: nat, salt2: nat)
    requires HashBinds(env.bcrypt)
    requires var r := RefreshOutcome(env, rows, id, t, now, salt); r.result.Success? && r.result.value.refreshToken != t
    ensures var rows' := RefreshOutcome(env, rows, id, t, now, salt).rows;
      RefreshOutcome(env, rows', id, t, later, salt2) == Transition(Failure(Unauthorized(ACCESS_DENIED)), rows')
  {
    var r := RefreshOutcome(env, rows, id, t, now, salt);
    var e := FindById(rows, id).value;
    var digest := env.bcrypt.hash(r.result.value.refreshToken, salt);
    FindByIdAfterUpdate(rows, id, Some(digest), id);
    assert FindById(r.rows, id) == Some(e.(refreshToken := Some(digest)));
    assert !env.bcrypt.compare(t, digest);
  }

  /**
   * With bcrypt's real 72-byte limit, rotation does not retire the old token
   * when the old and the new refresh token share their first 72 characters.
   * Every refresh JWT of one employee does: the header, the dot and the start
   * of the encoded `{"email":...,"sub":...` claims come before `iat` and `exp`.
   * The replaced token is then accepted again after the rotating refresh.
   */
  lemma RotatedTokenStillAccepted(env: Env, rows: seq<Employee>, nextId: int, e: Employee, now: nat, salt: nat,
                                  later: nat, salt2: nat, last: nat, salt3: nat)
    requires HashVerifies(env.bcrypt) && TruncatesAt72(env.bcrypt)
    requires TableInvariant(rows, nextId)
    requires e in rows && e.isActive
    requires var t1 := env.jwt.sign(PayloadOf(e), RefreshKeyOf(env.config), now);
      var t2 := env.jwt.sign(PayloadOf(e), RefreshKeyOf(env.config), later);
      |t1| >= 72 && |t2| >= 72 && t1[..72] == t2[..72]
    ensures var login := LoginOutcome(env, rows, e, now, salt);
      var t := login.result.value.refreshToken;
      var r1 := RefreshOutcome(env, login.rows, e.id, t, later, salt2);
      r1.result.Success? && RefreshOutcome(env, r1.rows, e.id, t, last, salt3).result.Success?
  {
    var login := LoginOutcome(env, rows, e, now, salt);
    var t := login.result.value.refreshToken;
    LoginThenRefreshSucceeds(env, rows, nextId, e, now, salt, later, salt2);
    var d1 := env.bcrypt.hash(t, salt);
    UniqueRowFound(rows, nextId, e);
    FindByIdAfterUpdate(rows, e.id, Some(d1), e.id);
    var e1 := e.(refreshToken := Some(d1));
    assert FindById(login.rows, e.id) == Some(e1);
    var r1 := RefreshOutcome(env, login.rows, e.id, t, later, salt2);
    assert r1 == LoginOutcome(env, login.rows, e1, later, salt2);
    assert PayloadOf(e1) == PayloadOf(e);
    var t2 := r1.result.value.refreshToken;
    var d2 := env.bcrypt.hash(t2, salt2);
    FindByIdAfterUpdate(login.rows, e.id, Some(d2), e.id);
    assert FindById(r1.rows, e.id) == Some(e1.(refreshToken := Some(d2)));
    assert d2 != "" && env.bcrypt.compare(t, d2);
  }

  /**
   * Two tokens for the same claims signed in the same second are equal, so a
   * refresh in the second of the login hands back the very token presented,
   * and that token stays usable: rotation does not always change the token.
   */
  lemma SameSecondRefreshReturnsSameToken(env: Env, rows: seq<Employee>, nextId: int, e: Employee, now: nat, salt: nat, salt2: nat)
    requires HashVerifies(env.bcrypt)
    requires TableInvariant(rows, nextId)
    requires e in rows && e.isActive
    ensures var login := LoginOutcome(env, rows, e, now, salt);
      var t := login.result.value.refreshToken;
      var r := RefreshOutcome(env, login.rows, e.id, t, now, salt2);
      r.result.Success? && r.result.value.refreshToken == t
  {
    LoginThenRefreshSucceeds(env, rows, nextId, e, now, salt, now, salt2);
    var login := LoginOutcome(env, rows, e, now, salt);
    var found := FindById(login.rows, e.id).value;
    assert found.email == e.email && found.empId == e.empId by {
      UniqueRowFound(rows, nextId, e);
      FindByIdAfterUpdate(rows, e.id, Some(env.bcrypt.hash(login.result.value.refreshToken, salt)), e.id);
    }
  }

  /** Logging out twice leaves the same table as logging out once. */
  lemma LogoutIdempotent(rows: seq<Employee>, id: int)
    ensures SetRefreshToken(SetRefreshToken(rows, id, None), id, None) == SetRefreshToken(rows, id, None)
  {
  }

  /** After logout every refresh for that employee is refused with 401 and changes nothing, with no assumption about bcrypt. */
  lemma RefreshAfterLogoutRefused(env: Env, rows: seq<Employee>, id: int, token: string, now: nat, salt: nat)
    ensures var rows' := SetRefreshToken(rows, id, None);
      RefreshOutcome(env, rows', id, token, now, salt) == Transition(Failure(Unauthorized(ACCESS_DENIED)), rows')
  {
    FindByIdAfterUpdate(rows, id, None, id);
  }

  /** An inactive employee never obtains a session: validation never returns it and a refresh never succeeds. */
  lemma InactiveNeverGetsSession(env: Env, rows: seq<Employee>, nextId: int, e: Employee, password: string, token: string, now: nat, salt: nat)
    requires TableInvariant(rows, nextId)
    requires e in rows && !e.isActive
    ensures ValidateOutcome(env, rows, e.email, password).Failure?
    ensures RefreshOutcome(env, rows, e.id, token, now, salt).result.Failure?
    ensures RefreshOutcome(env, rows, e.id, token, now, salt).rows == rows
  {
    UniqueRowFound(rows, nextId, e);
  }

  class AuthService {
    const repo: EmployeeRepository
    const env: Env

    constructor (repo: EmployeeRepository, env: Env)
      ensures this.repo == repo && this.env == env
    {
      this.repo := repo;
      this.env := env;
    }

    method ValidateEmployee(email: string, password: string) returns (r: Result<Option<Employee>, HttpError>)
      requires repo.Valid()
      ensures r == ValidateOutcome(env, repo.rows, email, password)
    {
      var employee := FindByEmail(repo.rows, email);
      if employee.None? {
        return Success(None);
      }
      if !employee.value.isActive {
        return Failure(Forbidden(ACCOUNT_INACTIVE));
      }
      var isPasswordValid := env.bcrypt.compare(password, employee.value.password);
      if !isPasswordValid {
        return Success(None);
      }
      r := Success(employee);
    }

    method Login(employee: Employee, now: nat, salt: nat) returns (r: AuthResponse)
      requires repo.Valid()
      modifies repo
      ensures repo.Valid() && repo.nextId == old(repo.nextId)
      ensures Transition(Success(r), repo.rows) == LoginOutcome(env, old(repo.rows), employee, now, salt)
    {
      var payload := PayloadOf(employee);
      var accessToken := env.jwt.sign(payload, AccessKey, now);
      var refreshToken := GenerateRefreshToken(payload, now);
      var hashedRefreshToken := env.bcrypt.hash(refreshToken, salt);
      repo.Update(employee.id, Some(hashedRefreshToken));
      r := AuthResponse(accessToken, refreshToken, ToResponse(employee), ACCESS_TOKEN_LIFETIME);
    }

    method RefreshTokens(employeeId: int, refreshToken: string, now: nat, salt: nat) returns (r: Result<AuthResponse, HttpError>)
      requires repo.Valid()
      modifies repo
      ensures repo.Valid() && repo.nextId == old(repo.nextId)
      ensures Transition(r, repo.rows) == RefreshOutcome(env, old(repo.rows), employeeId, refreshToken, now, salt)
    {
      var found := FindById(repo.rows, employeeId);
      if found.None? || !HasSession(found.value.refreshToken) {
        return Failure(Unauthorized(ACCESS_DENIED));
      }
      var employee := found.value;
      if !employee.isActive {
        return Failure(Forbidden(ACCOUNT_INACTIVE));
      }
      var refreshTokenMatches := env.bcrypt.compare(refreshToken, employee.refreshToken.value);
      if !refreshTokenMatches {
        return Failure(Unauthorized(ACCESS_DENIED));
      }
      var payload := PayloadOf(employee);
      var accessToken := env.jwt.sign(payload, AccessKey, now);
      var newRefreshToken := GenerateRefreshToken(payload, now);
      var hashedRefreshToken := env.bcrypt.hash(newRefreshToken, salt);
      repo.Update(employee.id, Some(hashedRefreshToken));
      r := Success(AuthResponse(accessToken, newRefreshToken, ToResponse(employee), ACCESS_TOKEN_LIFETIME));
    }

    /** Clears the slot; raises nothing of its own, and an unknown id changes nothing. */
    method Logout(employeeId: int)
      requires repo.Valid()
      modifies repo
      ensures repo.Valid() && repo.nextId == old(repo.nextId)
      ensures repo.rows == SetRefreshToken(old(repo.rows), employeeId, None)
    {
      repo.Update(employeeId, None);
    }

    /** The refresh token: the same claims, signed with the refresh secret and lifetime. */
    function GenerateRefreshToken(payload: Claims, now: nat): (token: string)
      ensures token == env.jwt.sign(payload, RefreshKey(OrDefault(env.config.jwtRefreshSecret, DEFAULT_REFRESH_SECRET),
                                                        OrDefault(env.config.jwtRefreshExpiration, DEFAULT_REFRESH_EXPIRATION)), now)
      ensures env.config.jwtRefreshSecret.None? && env.config.jwtRefreshExpiration.None? ==>
        token == env.jwt.sign(payload, RefreshKey(DEFAULT_REFRESH_SECRET, DEFAULT_REFRESH_EXPIRATION), now)
    {
      env.jwt.sign(payload, RefreshKeyOf(env.config), now)
    }
  }
}
