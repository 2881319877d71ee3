# Employee API core, modelled in Dafny

This project models the core of a NestJS employee-management API. It covers:

- **Authentication and sessions (`Auth`).** `validateEmployee` checks an email and password: the active flag is checked before the password. `login` issues an access token and a refresh token, and stores a bcrypt digest of the refresh token in the employee's `refreshToken` column. `refreshTokens` checks the stored digest and rotates it. `logout` clears it.
- **Guards.** `ApiKeyGuard` admits a request whose `x-api-key` header equals the configured key. `JwtOrApiKeyGuard` does the same, attaching a fixed server-to-server principal. Without a key it falls back to the JWT check, and every JWT failure becomes one 401.
- **Employees (`Employees`, `Validation`).** `create` rejects a duplicate `empId` or `email` with 409 and maps every other failure to 500. On success it stores the hashed password. `findAll` and `findOne` read rows back. The class-validator constraints of `CreateEmployeeDto` are modelled as predicates: lengths, the phone pattern, the password pattern and the gender enum.
- **Logging interceptor (`LoggingInterceptor`).** It redacts sensitive keys from logged bodies, headers and responses. On the error path it logs `error.status || 500` and rethrows.
- **Exception filter (`HttpExceptionFilter`).** `AllExceptionsFilter` turns any exception into the JSON error reply and the log entry.

How collaborators are represented:

- **The repository** is a class, `Repository.EmployeeRepository`, with `rows: seq<Employee>` and a serial counter `nextId`. The queries (`findOne`, a `LIMIT 1`, and `find`) carry no ORDER BY, so PostgreSQL fixes no order for their results. The model fixes one: rows stay in insertion order, and `findOne` returns the first matching row in that order. A sequence can say which row a lookup returns when several match; a map from id to row could not.
- **bcrypt and JwtService** are function values (`Crypto.Bcrypt`, `Crypto.Jwt`). The random salt and the second in which a token is signed are explicit arguments.
- **Idealised properties of the hash** are ghost predicates. `HashVerifies` says a digest verifies its own secret. `HashBinds` says a digest verifies only its own secret, which bcrypt does not promise. Each lemma that relies on one names it in its `requires`.
- **Each service operation** is first a pure function from the table to a result and a new table (`ValidateOutcome`, `LoginOutcome`, `RefreshOutcome`, `CreateOutcome`). The class methods that read and write the repository are proved to follow these functions. Lemmas relate several calls: login then refresh, refresh after logout, creating twice.
- **JavaScript values** seen by the interceptor and the filter are a `Json` datatype. It has JavaScript truthiness, and object spread copies an array's or a string's elements under their index keys. A string is split into Unicode characters, where JavaScript splits it into UTF-16 code units; the two differ only outside the Basic Multilingual Plane, and no logged body, header set or response reaches the spread as a string.

Observations the model makes precise:

- `findOne` answers a missing id with a 409 `ConflictException`, not a 404. The model keeps the 409.
- The serialised employee omits only `password`. The stored refresh-token digest is part of every employee response.
- The password pattern has no end anchor. Its lookaheads stop at the first line terminator, so all four character classes must occur on the first line, while anything after the first character is otherwise unconstrained.
- Two refresh tokens for the same claims signed in the same second are equal. A refresh in the second of the login therefore hands back the token it was given.
- Rotation does not retire a refresh token under real bcrypt. bcrypt reads only the first 72 bytes of a secret. All refresh JWTs of one employee share those bytes: the header, the dot and the start of the encoded `{"email":...,"sub":...}` claims, which come before `iat` and `exp`. So a digest made from the new token also verifies the old one, and a replaced token keeps working until it expires. `Auth.RotatedTokenStillAccepted` proves this under `TruncatesAt72`. `Auth.StaleTokenRefused` holds only under the idealised `HashBinds`.
- The conflict message depends on which row the create lookup returns. If that row shares only the email, the answer is "Email already exists", even when another row holds the same empId. The program leaves open which of two such rows comes back.
- A plain `Error` carrying a `status` property is logged by the interceptor with that status, while the filter replies 500.
- A thrown `null` or `undefined` makes the interceptor's `error.status` read throw a TypeError. The interceptor logs nothing for it; the filter still logs the 500, and the client receives the same 500 reply.

## Model

| member | source | states |
|---|---|---|
| AppConfig.OrDefault | src/auth/auth.service.ts:128-129 | an unset or empty configuration value yields the fallback; any other value is used as is |
| AppConfig.ApiKey | src/auth/guards/api-key.guard.ts:19 | the key compared against is API_SECRET_KEY when that is set and non-empty, otherwise "your-server-api-secret-key"; it is never empty |
| Repository.FirstIndex | src/employee/employee.service.ts:18-23 | the position found holds a matching row and no earlier row matches; none is found only when no row matches |
| Repository.FindOne | src/employee/employee.service.ts:18-23 | a found row is stored and satisfies the condition; nothing is found exactly when no stored row satisfies it |
| Repository.FindById | src/auth/auth.service.ts:74-76 | a found row is stored and has that id; nothing is found exactly when no row has it |
| Repository.FindByEmail | src/auth/auth.service.ts:25-27 | a found row is stored and has that email; nothing is found exactly when no row has it |
| Repository.FindByEmpIdOrEmail | src/employee/employee.service.ts:18-23 | a found row shares the empId or the email; nothing is found exactly when every row differs in both |
| Repository.FindByIdAfterUpdate | src/auth/auth.service.ts:61-63 | after updating one employee's refresh-token slot, a lookup by id finds the same row as before, with only that slot changed |
| Repository.FindByEmailAfterUpdate | src/auth/auth.service.ts:109-111 | after updating a slot, a lookup by email finds the same row as before, with only that slot changed |
| Repository.UpdateKeepsInvariant | src/auth/auth.service.ts:122-124 | updating refresh-token slots keeps ids increasing and empId and email unique |
| Repository.UniqueRowFound | src/employee/emoloyee.entity.ts:12-25 | under the unique empId and email columns and serial ids, every stored row is what a lookup by its own id and by its own email returns |
| Repository.EmployeeRepository.Update | src/auth/auth.service.ts:61-63 | the table becomes the old table with that id's slot set, and the serial counter is unchanged |
| Repository.EmployeeRepository.Save | src/employee/employee.service.ts:45 | the saved row is the entity with the next serial id; it is appended and the counter advances, keeping the table's integrity |
| Entities.ToResponse | src/employee/dto/employee-response.dto.ts:3-27 | the response copies every column of the row, the refresh-token digest included, and has no password field |
| Entities.ResponseOmitsOnlyPassword | src/employee/dto/employee-response.dto.ts:3-27 | two employees give the same response exactly when they differ at most in the password digest |
| Auth.RefreshKeyOf | src/auth/auth.service.ts:127-135 | refresh tokens are signed with JWT_REFRESH_SECRET and JWT_REFRESH_EXPIRATION when set and non-empty; an unset or empty value falls back to "your-refresh-secret-key" or "7d"; neither is ever empty |
| Auth.ValidateOutcome | src/auth/auth.service.ts:24-46 | an unknown email gives null; for the row found by email, 403 "Your account is inactive..." is raised exactly when it is inactive; an active row whose password does not verify gives null; one whose password verifies is returned; a returned employee is stored, has that email, is active and its password verifies |
| Auth.LoginOutcome | src/auth/auth.service.ts:48-71 | with the database, bcrypt and JWT signing taken as never failing, login always succeeds with expiresIn 900 and the employee's response; both tokens are signed over {email, sub: id, empId}; the table differs only in that employee's slot, which holds the digest of the returned refresh token |
| Auth.RefreshOutcome | src/auth/auth.service.ts:73-119 | an unknown id or an empty slot gives 401, then an inactive account gives 403, then a non-matching token gives 401; every failure leaves the table unchanged; it succeeds exactly when all four checks pass, and a success is a login of the stored employee |
| Auth.ValidateExactly | src/auth/auth.service.ts:24-46 | with unique emails, validation returns a given employee exactly when it is stored under that email, is active and the password verifies |
| Auth.InactiveRefusedBeforePassword | src/auth/auth.service.ts:33-39 | an inactive account gets 403 whatever password is presented |
| Auth.NoSessionBeatsInactive | src/auth/auth.service.ts:78-85 | an inactive employee without a session gets 401, not 403, and nothing changes |
| Auth.LoginThenRefreshSucceeds | src/auth/auth.service.ts:57-95 | if a digest verifies its own secret, the refresh token a login returns is accepted by a later refresh of that active employee |
| Auth.StaleTokenRefused | src/auth/auth.service.ts:88-111 | if a digest verifies only its own secret, a token that a refresh has replaced by a different one is refused with 401, and nothing changes |
| Auth.RotatedTokenStillAccepted | src/auth/auth.service.ts:88-111 | if bcrypt reads only the first 72 bytes and the old and new refresh tokens share them, the token a rotating refresh replaced is accepted by the next refresh |
| Auth.SameSecondRefreshReturnsSameToken | src/auth/auth.service.ts:97-111 | a refresh in the same second as the login succeeds and returns the very refresh token presented |
| Auth.LogoutIdempotent | src/auth/auth.service.ts:121-125 | logging out twice leaves the same table as logging out once |
| Auth.RefreshAfterLogoutRefused | src/auth/auth.service.ts:78-80 | after logout every refresh for that id is refused with 401 and changes nothing, whatever bcrypt does |
| Auth.InactiveNeverGetsSession | src/auth/auth.service.ts:33-85 | an inactive employee fails validation and every refresh, and the table is unchanged |
| Auth.AuthService.ValidateEmployee | src/auth/auth.service.ts:24-46 | the method's result is the validation outcome on the current table, and nothing is written |
| Auth.AuthService.Login | src/auth/auth.service.ts:48-71 | the response and the new table are the login transition of the old table; the table's integrity is kept |
| Auth.AuthService.RefreshTokens | src/auth/auth.service.ts:73-119 | the result and the new table are the refresh transition of the old table; the table's integrity is kept |
| Auth.AuthService.GenerateRefreshToken | src/auth/auth.service.ts:127-135 | the refresh token signs the given claims with the configured refresh secret and lifetime, or "your-refresh-secret-key" and "7d" when unset |
| Auth.AuthService.Logout | src/auth/auth.service.ts:121-125 | the employee's slot is cleared, nothing else changes and nothing is raised |
| ApiKeyGuard.CanActivate | src/auth/guards/api-key.guard.ts:9-26 | admits (true) exactly when the header equals the configured key; a missing or empty header gives 401 "API Key is missing", any other key gives 401 "Invalid API Key"; it never answers false |
| ApiKeyGuard.DefaultKeyAccepted | src/auth/guards/api-key.guard.ts:19-25 | with API_SECRET_KEY unset, the published default key is accepted |
| JwtOrApiKeyGuard.Decide | src/auth/guards/jwt-or-api-key.guard.ts:11-40 | a provided key decides alone: the sentinel principal if it is right, 401 "Invalid API Key" if wrong; without a key, the JWT's user, or 401 "Invalid credentials..." for any JWT failure |
| JwtOrApiKeyGuard.CanActivate | src/auth/guards/jwt-or-api-key.guard.ts:11-40 | on success request.user becomes the decided principal and the answer is true; on failure request.user is untouched and the decided exception is raised |
| JwtOrApiKeyGuard.KeyDecidesAlone | src/auth/guards/jwt-or-api-key.guard.ts:16-31 | with a key present, the JWT outcome makes no difference |
| JwtOrApiKeyGuard.JwtFailuresIndistinguishable | src/auth/guards/jwt-or-api-key.guard.ts:34-39 | without a key, all JWT failures produce the same reply |
| JwtOrApiKeyGuard.GuardsAgree | src/auth/guards/jwt-or-api-key.guard.ts:16-31 | where ApiKeyGuard admits, this guard admits as the sentinel; where it finds a wrong key, this guard raises the same 401; where the key is missing, this guard defers to the JWT |
| JwtOrApiKeyGuard.SentinelIsNoEmployee | src/auth/guards/jwt-or-api-key.guard.ts:21-26 | the sentinel's id 0 belongs to no stored employee |
| Validation.GenderRoundTrip | src/employee/dto/create-employee.dto.ts:14-18 | parsing a gender string is the exact inverse of the enum's values |
| Validation.MatchesPhonePattern | src/employee/dto/create-employee.dto.ts:36-50 | an accepted phone number is non-empty and contains no letter; every non-empty string of digits is accepted |
| Validation.MatchesPasswordPattern | src/employee/dto/create-employee.dto.ts:61 | an accepted password starts with a permitted character and holds a lowercase letter, an uppercase letter, a digit and a special character; for a password without line breaks that is also sufficient |
| Validation.FieldValid | src/employee/dto/create-employee.dto.ts:20-97 | isActive is always valid; an omitted phone, personalEmail or image is valid; a valid password has 8 to 255 characters and all four character classes; a valid gender is "male", "female" or "other"; a valid email passes isEmail and has 1 to 100 characters |
| Validation.FirstLine | src/employee/dto/create-employee.dto.ts:61 | the region a `.*` lookahead scans is a prefix without line terminators, ending at the first terminator or at the end |
| Validation.FieldErrors | src/employee/dto/create-employee.dto.ts:20-97 | a property is reported exactly when its decorators refuse the DTO, and the DTO is accepted exactly when every property is valid |
| Validation.FirstLineOfAppend | src/employee/dto/create-employee.dto.ts:61 | appending text changes the scanned region only when the original has no line terminator |
| Validation.PasswordTailUnconstrained | src/employee/dto/create-employee.dto.ts:57-64 | anything appended to an accepted password, up to 255 characters, is still accepted |
| Validation.SamplePasswordAccepted | src/employee/dto/create-employee.dto.ts:61 | "Abc123!@" matches the password pattern |
| Validation.ClassesAfterLineBreakRefused | src/employee/dto/create-employee.dto.ts:61 | a password is refused whenever some line terminator has no lowercase letter, no uppercase letter, no digit or no special character before it, whatever follows the break |
| Employees.CreateOutcome | src/employee/employee.service.ts:15-55 | a lookup failure gives 500; otherwise, when the lookup returns a row, the answer is 409 "Employee ID already exists" if that row has the DTO's empId and 409 "Email already exists" if not; a write failure with no conflict gives 500 "Failed to create employee"; it succeeds exactly when no row conflicts and nothing fails; a success appends exactly one row holding the password's digest and returns its response; every failure changes nothing |
| Employees.NewEmployee | src/employee/employee.service.ts:38-42 | the new row copies every DTO field, holds the password's digest instead of the password, is active unless the DTO says isActive false, and has no session |
| Employees.CreateTwiceConflicts | src/employee/employee.service.ts:18-28 | creating the same employee again gives 409 "Employee ID already exists" and saves nothing |
| Employees.ConflictMessageFollowsFirstMatch | src/employee/employee.service.ts:25-31 | when the first matching row shares only the email, the answer is "Email already exists" even if a later row has the empId |
| Employees.CreateKeepsInvariant | src/employee/employee.service.ts:34-45 | creation keeps ids increasing and empId and email unique |
| Employees.EmployeeService.Create | src/employee/employee.service.ts:15-55 | the result, the new table and the counter are the creation outcome of the old ones; the table's integrity is kept |
| Employees.EmployeeService.FindAll | src/employee/employee.service.ts:57-60 | one response per stored row, in table order |
| Employees.EmployeeService.FindOne | src/employee/employee.service.ts:62-68 | fails exactly when no stored row has the id, then with 409 "Employee not found"; otherwise it returns the response of a stored row with that id |
| LoggingInterceptor.Redact | src/common/interceptors/logging.interceptor.ts:79-88 | same keys; a truthy value under a sensitive key becomes "***REDACTED***"; every other value is unchanged |
| LoggingInterceptor.RedactFields | src/common/interceptors/logging.interceptor.ts:82-86 | the key-by-key loop yields the redacted copy for the set of listed keys |
| LoggingInterceptor.SanitizedBody | src/common/interceptors/logging.interceptor.ts:76-89 | a falsy body logs as {}; otherwise the logged object is the redaction of the body's spread copy for password, refreshToken, accessToken and token, so it has the same keys, truthy values under those names become the marker and every other value is unchanged |
| LoggingInterceptor.SanitizedHeaders | src/common/interceptors/logging.interceptor.ts:91-107 | the logged headers are the redaction of the headers' spread copy for authorization, cookie, x-api-key and x-auth-token: the same keys, truthy values under those names replaced by the marker, everything else unchanged |
| LoggingInterceptor.SanitizedObject | src/common/interceptors/logging.interceptor.ts:120-135 | anything but an array or object is returned unchanged; an array or object becomes the redaction of its spread copy for the sensitive fields: the same keys, truthy sensitive values replaced by the marker, everything else unchanged |
| LoggingInterceptor.SanitizedItems | src/common/interceptors/logging.interceptor.ts:113-115 | same length and order, each item sanitised as an object |
| LoggingInterceptor.SanitizedResponse | src/common/interceptors/logging.interceptor.ts:109-118 | falsy data is returned as is; an array is sanitised item by item with its length and order kept; anything else is sanitised as one object |
| LoggingInterceptor.SanitizeBody | src/common/interceptors/logging.interceptor.ts:76-89 | the method computes the sanitised body |
| LoggingInterceptor.SanitizeHeaders | src/common/interceptors/logging.interceptor.ts:91-107 | the method computes the sanitised headers |
| LoggingInterceptor.SanitizeResponseObject | src/common/interceptors/logging.interceptor.ts:120-135 | the method computes the sanitised response object |
| LoggingInterceptor.SecretsNeverLogged | src/common/interceptors/logging.interceptor.ts:76-135 | no logged body, header set or response object holds a truthy value under a sensitive key other than the marker |
| LoggingInterceptor.RedactIdempotent | src/common/interceptors/logging.interceptor.ts:79-88 | redacting a redacted copy changes nothing |
| LoggingInterceptor.SanitisersIdempotent | src/common/interceptors/logging.interceptor.ts:76-135 | each of the four sanitisers is idempotent |
| LoggingInterceptor.NestedSecretsKept | src/common/interceptors/logging.interceptor.ts:79-88 | every non-sensitive top-level key is logged with its value as received, so secrets nested inside it are logged as is; a body is logged unchanged exactly when each top-level sensitive key is falsy or already the marker |
| LoggingInterceptor.NestedArrayBecomesObject | src/common/interceptors/logging.interceptor.ts:113-125 | any array inside a response array is logged as the object of its elements under their index keys, with nothing redacted |
| LoggingInterceptor.OnError | src/common/interceptors/logging.interceptor.ts:54-72 | the log records method, url and `error.status` when it is truthy, else 500, and the same error is rethrown; only for a thrown null or undefined is nothing logged, and a TypeError travels on |
| LoggingInterceptor.HttpStatusLogged | src/common/interceptors/logging.interceptor.ts:60 | an HttpException is logged with its own status, or 500 when that status is 0 |
| HttpExceptionFilter.StatusOf | src/common/filters/http-exception.filter.ts:22-25 | an HttpException's own status, otherwise 500 |
| HttpExceptionFilter.MessageOf | src/common/filters/http-exception.filter.ts:27-40 | "Internal server error" for non-HTTP exceptions; a string response verbatim; an object response's truthy `message`, otherwise the object itself |
| HttpExceptionFilter.StackOf | src/common/filters/http-exception.filter.ts:47 | a stack is logged exactly when the exception is an Error |
| HttpExceptionFilter.Catch | src/common/filters/http-exception.filter.ts:17-57 | the HTTP status sent equals the body's statusCode; the body is {statusCode, timestamp, path: url, method, message}; the log is that body plus the stack and the request body |
| HttpExceptionFilter.NonHttpRepliesIdentical | src/common/filters/http-exception.filter.ts:22-30 | any two non-HTTP exceptions produce the same 500 reply |
| HttpExceptionFilter.ReplyIgnoresStackAndBody | src/common/filters/http-exception.filter.ts:32-53 | the reply depends on neither the stack trace nor the request body; the stack goes to the log |
| HttpExceptionFilter.RaisedErrorRendered | src/common/filters/http-exception.filter.ts:37-40 | an exception a service raises reaches the client with its status and its message, or the reason phrase when its message is empty |
| HttpExceptionFilter.InterceptorTransparent | src/common/interceptors/logging.interceptor.ts:54-72 | whatever the interceptor rethrows, the filter's reply equals the reply to the original exception |
| HttpExceptionFilter.LoggedStatusMatchesReply | src/common/interceptors/logging.interceptor.ts:60 | for an HttpException with a non-zero status, the interceptor's logged status equals the filter's reply status |
| HttpExceptionFilter.PlainErrorStatusDiverges | src/common/filters/http-exception.filter.ts:22-25 | a plain Error with status 404 is logged as 404 but answered with 500 |

## Left out

- The logger service, controllers, `main.ts`, module wiring, migrations, the database configuration and the passport strategies are not part of this model. The JWT strategy's verdict enters `JwtOrApiKeyGuard` as a parameter (`JwtCheck`).
- bcrypt and JwtService are abstract function values. bcrypt's 72-byte truncation enters only as the optional hypothesis `TruncatesAt72`. Its cost factor and token expiry checking are not modelled. The salt and the signing second are parameters.
- Timestamps (`new Date().toISOString()`, `createdAt`, `updatedAt`) are left out. The filter's timestamp is a parameter. `dob` stays the DTO's string rather than a `Date`.
- Auth.AuthService.Logout: TypeORM's `update(id, { refreshToken: undefined })` is modelled as clearing the slot. Whether TypeORM skips or rejects an all-undefined update set depends on its version and is not modelled.
- Auth.LoginOutcome: collaborator failures outside `create` are not modelled. Examples are a rejected `update` in login, refreshTokens or logout (src/auth/auth.service.ts:61-63, 109-111, 122-124), a throwing `bcrypt.hash` or `bcrypt.compare`, a failing `signAsync`, and a failing `find` or `findOne`. In the program each reaches the exception filter as a 500. The model treats these collaborators as total, so login always succeeds and `RefreshOutcome`, `ValidateOutcome`, `findAll` and `findOne` fail only in the ways stated.
- Employees.CreateOutcome: failures other than conflicts (a database or bcrypt error) are a `StoreFault` parameter. The database's own unique-constraint violation on `save` cannot arise in this sequential model, because the lookup has just excluded it. Two concurrent creations racing past the lookup are not modelled.
- Validation.FieldErrors: `IsEmail` and `IsDateString` are abstract predicates. Lengths count the characters of the string. validator.js counts a surrogate pair as one character, as the model does, but it also skips the variation selectors U+FE0E and U+FE0F, which the model counts. A request body with a missing required property or a property of the wrong type cannot be represented, because the DTO's fields are typed.
- The interceptor's request and response log entries are not modelled beyond their sanitised parts: `userAgent`, `ip`, response time, JSON formatting and the rxjs plumbing. The error log's `message`, `stack` and `name` fields are left out too.
- Json numbers are integers, with no NaN or fractions. An object is a map, so property order is not modelled. An exotic `__proto__` key in a spread is not modelled either.
- Only the refresh-token column is ever updated in place, so `Repository` models `update` for that column alone.
- Repository.FindOne: the lookups carry no ORDER BY, so PostgreSQL may return rows in any order, and an UPDATE can move a row. The model fixes insertion order, so `findAll`'s order and which of two conflicting rows `create`'s lookup returns are choices of the model; the program does not determine them.
