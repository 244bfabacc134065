# school_api core in Dafny

A model of the authentication and teacher-management core of the school_api
Express/PostgreSQL service. It covers five areas:

- the JWT utilities: startup configuration check, `expiresIn` normalisation,
  signing and verification of access and refresh tokens;
- the authentication repository and service: login with user name or email,
  and registration with a duplicate check;
- the teacher repository: paged and filtered listing, lookup by id, single
  and batch insert, partial update, soft delete;
- the Express error middleware and the 404 handler;
- every valibot payload schema: grade, location, period, subject, user,
  student, teacher, tutor.

The database is modelled as immutable data. Each repository operation is a
function from a database state to an outcome: what it returned, the events it
caused on its pooled connection, and the database afterwards. Statements the
repositories build are kept as text with their parameter lists. The server's
reading of a statement is modelled from its column list and `$n`
placeholders, so the contracts rest on the alignment of placeholders and
values.

Code the model cannot see becomes a parameter with no assumptions attached:

- bcrypt hashing and comparison;
- the JWT library's `sign` and `verify`;
- valibot's `email` and `isoDate` checks;
- the id the database generates and its `NOW()`.

Module layout:

- Shared pieces: `Results` (Option and Result), `Text` (digits, JavaScript
  `trim`, `includes`), `Js` (unknown JavaScript values and truthiness), `Sql`
  (parameter values, placeholders, `ILIKE`), `Connections` (the connection
  protocol, `withClient` and `transaction`), `Valibot` (schemas as data and a
  generic `parse`), `Patterns` (the UUID and word regular expressions).
- One module per source file of the core: `Jwt`, `AuthRepo`, `AuthService`,
  `TeacherSql` (the statements the teacher repository builds), `TeacherRepo`,
  `ErrorHandler`, and one module per schema file.

## Model

| member | source | states |
|---|---|---|
| Jwt.ValidateJWTConfig | src/utils/jwt.ts:7-21 | startup succeeds exactly when JWT_SECRET, REFRESH_TOKEN, JWT_EXPIRATION and REFRESH_TOKEN_EXPIRATION are all set and non-empty; otherwise the error names the first missing one in that order; on success the configuration carries the four values plus the optional issuer and audience |
| Jwt.DurationPatternSpec | src/utils/jwt.ts:55 | the matcher for `^\d+[smhd]?$` accepts exactly the strings of one or more ASCII digits followed by at most one of s, m, h, d |
| Jwt.NormalizeExpiresIn | src/utils/jwt.ts:51-64 | a string is accepted exactly when its trimmed form is a duration, and the trimmed form is returned; a rejected string's error names the trimmed text; a positive number is rendered as JavaScript's `String` does, plain decimal below 10^21 and exponent form from there on; a non-positive number and any other value are rejected |
| Jwt.NormalizeIdempotent | src/utils/jwt.ts:51-64 | normalising an accepted string a second time changes nothing |
| Jwt.DurationTextIsTrimmed | src/utils/jwt.ts:53-55 | a string the duration pattern accepts has no white space for `trim` to remove |
| Jwt.NumberRenderingAccepted | src/utils/jwt.ts:59-61 | the rendering of a positive number is accepted exactly when the number is below 10^21, and then normalises to itself; from 10^21 on the exponent form (`1e+21`) fails the duration pattern |
| Jwt.SecondCharacterRejects | src/utils/jwt.ts:55 | a string of three or more characters whose second character is neither a digit nor a unit is not a duration |
| Js.ExponentForm | src/utils/jwt.ts:59 | the exponent form starts with a digit, has `.` or `e` second and ends with a digit |
| Jwt.PaddedExampleAccepted | src/utils/jwt.ts:52-56 | `" 007m "` is accepted as `"007m"`: surrounding white space is trimmed before matching |
| Jwt.InnerSpaceExampleRejected | src/utils/jwt.ts:55-56 | `"15 m"` is rejected: white space between number and unit is not trimmed |
| Jwt.WeekExampleRejected | src/utils/jwt.ts:55-56 | `"1w"` is rejected: only s, m, h and d are units |
| Jwt.AudiencesSeparateTokenClasses | src/utils/jwt.ts:69-73 | the audience an access token is signed for never equals the one refresh verification demands; with an audience configured, access verification demands exactly the access audience, which a refresh token's audience never equals (an empty audience is passed to the library as given); with none configured, access verification checks no audience |
| Jwt.SignAccessToken | src/utils/jwt.ts:78-103 | signing succeeds exactly when JWT_EXPIRATION normalises and the library yields a non-empty token for the sub, user_name and role claims under JWT_SECRET, HS256, the issuer, the audience and the trimmed lifetime; that token is returned |
| Jwt.SignRefreshToken | src/utils/jwt.ts:108-133 | as for access tokens, with the sub claim only, REFRESH_TOKEN as the key, the audience suffixed `_refresh` and REFRESH_TOKEN_EXPIRATION |
| Jwt.VerifyAccessToken | src/utils/jwt.ts:138-171 | verification succeeds exactly when the library accepts the token under JWT_SECRET, HS256 only, the issuer and the audience, and the decoded object has truthy sub, user_name and role; its claims are returned; a library rejection reads "Access token inválido o expirado"; every failure carries one of the two fixed messages |
| Jwt.VerifyRefreshToken | src/utils/jwt.ts:176-208 | as for access tokens, with REFRESH_TOKEN, the `_refresh` audience and only sub required |
| Jwt.AccessRoundTrip | src/utils/jwt.ts:78-171 | a signed access token that the library decodes to its claims plus iat/exp verifies exactly when sub, user_name and role are non-empty, and gives back those three values |
| Jwt.RefreshRoundTrip | src/utils/jwt.ts:108-208 | a signed refresh token decoded to its claims plus iat/exp verifies exactly when sub is non-empty, and gives back that sub |
| Jwt.VerifyAccessDecoded | src/utils/jwt.ts:146-170 | for a token the library decodes to an object, access verification succeeds exactly when the three claims are truthy, and returns that object |
| Jwt.VerifyRefreshDecoded | src/utils/jwt.ts:184-207 | for a token the library decodes to an object, refresh verification succeeds exactly when sub is truthy, and returns that object |
| AuthRepo.SelectLoginRow | src/repositories/auth/authRepo.ts:43-55 | the login query finds no row exactly when no account matches the identifier as user name or email with an admin or teacher role and is active; a row it finds is such an account |
| AuthRepo.LoginAttempt | src/repositories/auth/authRepo.ts:58-96 | with no eligible account the error is "Credentials invalid or user not allowed to login"; a success signs the tokens of an eligible account whose password matches; when some account is eligible but no eligible account's password matches, the error is "Credentials invalid, password does not match" |
| AuthRepo.LoginSession | src/repositories/auth/authRepo.ts:41-104 | login takes one connection, sends the login query bound to the identifier and the role list `["admin", "teacher"]`, and releases the connection whatever the outcome |
| AuthRepo.LoginUser | src/repositories/auth/authRepo.ts:37-105 | one connection, one query, released; every failure is reported as "Error in login"; a success carries the tokens of an eligible account whose password matches; with no matching password the login fails |
| AuthRepo.UniqueAccountLogsIn | src/repositories/auth/authRepo.ts:37-105 | when exactly one account is eligible, its password matches and the library signs both tokens, login returns those tokens |
| AuthRepo.RegisterUser | src/repositories/auth/authRepo.ts:114-170 | registration fails with "Failed to create user", leaving the table unchanged, exactly when some account has the user name or the email; otherwise it appends the row with the password hashed at 12 rounds and `is_active` defaulting to true, and returns that row without the password; the trace is the duplicate check, then the insert on success, on one connection |
| AuthRepo.RegistrationKeepsAccountsDistinct | src/repositories/auth/authRepo.ts:120-133 | if user names and emails were unique before a registration, they are unique after it |
| AuthRepo.RegisteredUserCanLogIn | src/repositories/auth/authRepo.ts:37-170 | an active admin or teacher just registered logs in with its user name and password and gets its own tokens, provided bcrypt accepts the password against its hash, no other account uses that user name as its email, and the library signs both tokens |
| AuthService.LoginAcceptance | src/services/authService.ts:13-16 | the login payload is accepted exactly when it is an object with an identifier of 1 to 100 characters and a password of 8 to 20 |
| AuthService.ToCreateUser | src/services/authService.ts:34 | the validated registration payload reaches the repository with its user name, email, password, role and `is_active` unchanged, and `is_active` is always present |
| AuthService.RegisterUser | src/services/authService.ts:31-54 | an invalid payload never reaches the database, and its validation error is rewrapped only if it mentions valibot; a valid one is registered as the repository does it, whose success is returned unchanged and whose error is rewrapped only if it mentions valibot |
| AuthService.LoginUser | src/services/authService.ts:63-89 | an invalid payload fails without touching the database; a valid one logs in as the repository does it, with the same trace, the same success, and the error rewrapped only if it mentions valibot |
| AuthService.NoVMeansNoRewrap | src/services/authService.ts:43-52 | a message without the letter v is rethrown unchanged |
| AuthService.LoginFailurePassesThrough | src/services/authService.ts:80-87 | "Error in login" leaves the service unchanged |
| AuthService.CreateFailurePassesThrough | src/services/authService.ts:43-52 | "Failed to create user" leaves the service unchanged |
| AuthService.LoginErrorsAreOpaque | src/services/authService.ts:63-89 | a failed login through the service either reads "Error in login" or is a rejected payload that sent nothing to the database |
| AuthService.RegistrationAlwaysSetsActive | src/services/authService.ts:34-37 | every registration the schema accepts hands the repository an explicit `is_active`, equal to the payload's, so the repository's default never applies |
| AuthService.LongPasswordCannotLogIn | src/services/authService.ts:15 | a password of 21 to 100 characters passes the registration schema, yet every login with it fails validation before reaching the database |
| Connections.StatementsKeepState | src/repositories/teacher/teacherRepo.ts:41-73 | statements sent on an acquired connection, in or out of a transaction, do not change the connection's state |
| Connections.LiveReplayEndsWithOneRelease | src/repositories/teacher/teacherRepo.ts:41-73 | a trace that takes a live connection to released ends with its only release and acquires nothing more |
| Connections.ReleasedIsFinal | src/repositories/teacher/teacherRepo.ts:48-50 | nothing may happen on a released connection |
| Connections.SessionReleasesOnce | src/repositories/teacher/teacherRepo.ts:41-51 | a complete session acquires its connection first and releases it last, each exactly once |
| Connections.WithClient | src/repositories/teacher/teacherRepo.ts:41-51 | `withClient` returns or throws what its callback did, and its trace is a complete session: acquire, the callback's statements, release |
| Connections.Transaction | src/repositories/teacher/teacherRepo.ts:59-73 | `transaction` returns or throws what its callback did; its trace is acquire, BEGIN, the callback's statements, then COMMIT on success or ROLLBACK on failure, then release |
| Connections.TransactionOfOne | src/repositories/teacher/teacherRepo.ts:59-73 | a transaction around one statement is acquire, BEGIN, the statement, COMMIT or ROLLBACK, release |
| Connections.TransactionOfNone | src/repositories/teacher/teacherRepo.ts:59-73 | a callback that throws before sending anything gives acquire, BEGIN, ROLLBACK, release |
| Connections.TransactionEndsOnce | src/repositories/teacher/teacherRepo.ts:59-73 | a transaction's trace holds exactly one COMMIT when its callback succeeds, exactly one ROLLBACK when it fails, never both, and one release |
| ErrorHandler.AsError | src/middlewares/errorHandler.ts:21 | an `Error` is kept as it is; any other thrown value becomes an error reading "Unknown error occurred" with no status code |
| ErrorHandler.StatusOf | src/middlewares/errorHandler.ts:27-29 | a non-zero numeric status code is used as it is; a missing, zero or non-numeric one gives 500 |
| ErrorHandler.HandleError | src/middlewares/errorHandler.ts:9-40 | with headers already sent the error is passed on untouched; otherwise the response has the error's status (or 500) and a non-empty message (the error's, or "Internal Server Error"), and holds a stack exactly when NODE_ENV is not "production" and the error has one |
| ErrorHandler.UnknownRouteAnswers404 | src/middlewares/errorHandler.ts:9-49 | an unknown route is answered with 404 and "Route <url> not found" |
| ErrorHandler.ProductionHidesStack | src/middlewares/errorHandler.ts:35-37 | in production no response carries a stack trace |
| Patterns.UuidPositional | src/schemas/userSchema.ts:12 | the UUID pattern accepts exactly the 36-character strings with dashes at positions 8, 13, 18 and 23 and a lower-case hex digit everywhere else |
| Patterns.UuidRejectsUpperCase | src/schemas/teacher/teacherSchema.ts:20 | no accepted UUID contains an upper-case letter |
| Valibot.Parse | src/schemas/userSchema.ts:21-27 | parsing an object schema succeeds exactly when the input is an object each of whose declared properties passes its schema; the output has exactly the declared keys, each with the input's value |
| Valibot.PipeOfOne | src/schemas/gradeSchema.ts:10 | a one-check pipe accepts exactly the strings that pass the check |
| Valibot.PipeOfTwo | src/services/authService.ts:14 | a two-check pipe accepts exactly the strings that pass both checks |
| Valibot.PipeOfThree | src/schemas/userSchema.ts:22 | a three-check pipe accepts exactly the strings that pass all three |
| Valibot.UuidEntry | src/schemas/student/studentSchema.ts:16 | a UUID-pattern property is accepted exactly when it is a string the pattern matches |
| Valibot.IsoDateEntry | src/schemas/periodSchema.ts:13-14 | an ISO-date property is accepted exactly when it is a string the library's date check accepts |
| GradeSchema.CreateGradeAcceptance | src/schemas/gradeSchema.ts:9-15 | a grade payload is accepted exactly when `grade` is a string of at most 20 characters; the result is just that field; the update schema behaves identically |
| GradeSchema.EmptyGradeAccepted | src/schemas/gradeSchema.ts:10 | the empty grade is accepted: there is no minimum length |
| GradeSchema.GradeAcceptance | src/schemas/gradeSchema.ts:3-7 | a full grade record is a valid payload plus a lower-case UUID `uuid` and an ISO-date `created_at` |
| LocationSchema.CreateLocationAcceptance | src/schemas/locationSchema.ts:14-30 | a location payload is accepted exactly when country, state, municipality, city and colony are strings of at most 100 characters and street of at most 200; update behaves identically |
| LocationSchema.EmptyLocationAccepted | src/schemas/locationSchema.ts:14-21 | a location of six empty strings is accepted |
| LocationSchema.LocationAcceptance | src/schemas/locationSchema.ts:3-12 | a full location record is a valid payload plus a UUID `uuid` and an ISO-date `created_at` |
| PeriodSchema.CreatePeriodAcceptance | src/schemas/periodSchema.ts:11-20 | a period payload is accepted exactly when the name has at most 50 characters and both dates pass the ISO-date check; update behaves identically |
| PeriodSchema.PeriodDatesUnrelated | src/schemas/periodSchema.ts:11-15 | swapping start and end date never changes acceptance: nothing requires the start to precede the end |
| PeriodSchema.PeriodAcceptance | src/schemas/periodSchema.ts:3-9 | a full period record is a valid payload plus a UUID `uuid` and an ISO-date `created_at` |
| SubjectSchema.CreateSubjectAcceptance | src/schemas/subjectSchema.ts:10-18 | a subject payload is accepted exactly when the name has at most 150 characters and the description at least 200; update behaves identically |
| SubjectSchema.LongDescriptionAccepted | src/schemas/subjectSchema.ts:12 | no description is too long: any length from 200 up is accepted |
| SubjectSchema.SubjectAcceptance | src/schemas/subjectSchema.ts:3-8 | a full subject record is a valid payload plus a UUID `uuid` and an ISO-date `created_at` |
| UserSchema.RoleAcceptance | src/schemas/userSchema.ts:3-8 | a role is accepted exactly when it is admin, teacher, student or tutor_parent |
| UserSchema.CreateUserAcceptance | src/schemas/userSchema.ts:21-27 | a registration is accepted exactly when the user name has 8 to 50 characters from `[A-Za-z0-9_]`, the password 8 to 100, the email passes the library check and has at most 100, `is_active` is a boolean and the role is one of the four |
| UserSchema.UpdateUserAcceptance | src/schemas/userSchema.ts:29-35 | an update is accepted under the same rules, except that the user name is checked for length only |
| UserSchema.UserAcceptance | src/schemas/userSchema.ts:11-19 | a full user record is a valid update plus a UUID `uuid` and an ISO-date `created_at` |
| UserSchema.CreateImpliesUpdate | src/schemas/userSchema.ts:21-35 | every payload registration accepts, update accepts too |
| UserSchema.DottedNameOnlyUpdatable | src/schemas/userSchema.ts:22-30 | `john.doe1` passes the update name check and fails the registration name check |
| StudentSchema.CreateStudentAcceptance | src/schemas/student/studentSchema.ts:12-24 | a student payload is accepted exactly when the three name parts have at most 150 characters and `tutor_id` is a lower-case UUID; update behaves identically |
| StudentSchema.StudentAcceptance | src/schemas/student/studentSchema.ts:3-10 | a full student record is a valid payload plus a UUID `uuid` and an ISO-date `created_at` |
| TeacherSchema.CreateTeacherAcceptance | src/schemas/teacher/teacherSchema.ts:15-33 | a teacher payload is accepted exactly when the three name parts have at most 150 characters, the phone exactly 10 characters of any kind, and user_fk, grade_id and location_id are lower-case UUIDs; update behaves identically |
| TeacherSchema.TeacherAcceptance | src/schemas/teacher/teacherSchema.ts:3-13 | a full teacher record is a valid payload plus a UUID `uuid` and an ISO-date `created_at` |
| TutorSchema.CreateTutorAcceptance | src/schemas/tutor/tutorSchema.ts:13-27 | a tutor payload is accepted exactly when the three name parts have at most 150 characters, the phone exactly 10, and the email (not format-checked) at most 200; update behaves identically |
| TutorSchema.TutorAcceptance | src/schemas/tutor/tutorSchema.ts:3-11 | a full tutor record is a valid payload plus a UUID `uuid` and an ISO-date `created_at` |
| Text.DecimalRoundTrip | src/repositories/teacher/teacherRepo.ts:101-102 | `parseInt` of the count the database renders gives back the count |
| Text.DecimalInjective | src/repositories/teacher/teacherRepo.ts:101-102 | different counts are rendered differently |
| Text.TrimKeeps | src/utils/jwt.ts:53 | `trim` leaves a string without white space at either end unchanged |
| Text.TrimKeepsDigits | src/utils/jwt.ts:53 | `trim` leaves a string that starts and ends with a digit unchanged |
| Sql.PlaceholderInjective | src/repositories/teacher/teacherRepo.ts:150 | different parameter positions never render to the same `$n` |
| Sql.PlaceholderRoundTrip | src/repositories/teacher/teacherRepo.ts:150 | the server reads a rendered `$n` back as position n |
| Sql.ResolvePlaceholder | src/repositories/teacher/teacherRepo.ts:132-135 | `$i` names the i-th parameter |
| Sql.PayloadMap | src/repositories/teacher/teacherRepo.ts:148-155 | the columns a payload sets are exactly its keys, and with distinct keys each takes its own value |
| Sql.BindAligned | src/repositories/teacher/teacherRepo.ts:148-155 | columns paired with consecutive placeholders, bound against the payload's values after a prefix, store exactly the payload |
| Sql.PercentMatchesAll | src/repositories/teacher/teacherRepo.ts:90-91 | `%` matches every string |
| Sql.PlainPrefixMatch | src/repositories/teacher/teacherRepo.ts:90-91 | for a value without wildcards, `v%` matches exactly the strings starting with v, up to ASCII case |
| Sql.LeadingPercentMatch | src/repositories/teacher/teacherRepo.ts:90-91 | a leading `%` lets the rest of the pattern match any suffix |
| Sql.FilterPatternMeaning | src/repositories/teacher/teacherRepo.ts:90-95 | for a value without wildcards, `%v%` matches exactly the strings containing v, up to ASCII case |
| Sql.UnderscoreFilterMatchesAnyName | src/repositories/teacher/teacherRepo.ts:89-91 | wildcards in a filter value are not escaped: the name filter `_` matches every non-empty name |
| TeacherSql.AddFilterMeaning | src/repositories/teacher/teacherRepo.ts:89-96 | one filter step adds exactly its column's ILIKE condition, with the placeholder naming the value it pushed |
| TeacherSql.BuildWhere | src/repositories/teacher/teacherRepo.ts:87-97 | the conditions start with `u.is_active = TRUE`, and the k-th condition after it is an ILIKE whose placeholder `$k` names the k-th value, a text; there is one value for each non-empty filter |
| TeacherSql.WhereMeansFilter | src/repositories/teacher/teacherRepo.ts:87-97 | the built WHERE clause holds of a row exactly when the user is active and each non-empty filter's `%v%` pattern matches its column, whatever parameters follow the filter values |
| TeacherSql.PlainFilterMeansSubstring | src/repositories/teacher/teacherRepo.ts:89-95 | a filter value free of wildcards matches exactly the column texts containing it, up to ASCII case |
| TeacherSql.PagingAlignment | src/repositories/teacher/teacherRepo.ts:112-114 | LIMIT names the page size and OFFSET names the offset, whatever filters came first |
| TeacherSql.PagingOf | src/repositories/teacher/teacherRepo.ts:83-105 | LIMIT is the page size, 100 by default; without a page, or on page 1, the offset is 0 |
| TeacherSql.NextPageFollows | src/repositories/teacher/teacherRepo.ts:105 | page n + 1 has the same size as page n and starts where page n ends |
| TeacherSql.ParseInsert | src/repositories/teacher/teacherRepo.ts:148-153 | the INSERT parses exactly when the payload has a key (otherwise its column list starts with a comma), listing the keys with one placeholder each |
| TeacherSql.InsertAlignment | src/repositories/teacher/teacherRepo.ts:148-155 | binding the INSERT against `Object.values` stores exactly the payload |
| TeacherSql.ParseUpdate | src/repositories/teacher/teacherRepo.ts:200-206 | the UPDATE lists the keys with one placeholder each |
| TeacherSql.UpdateAlignment | src/repositories/teacher/teacherRepo.ts:200-207 | the SET placeholders bind the payload and the WHERE placeholder binds the id |
| TeacherRepo.JoinRows | src/repositories/teacher/teacherRepo.ts:108-109 | the join holds exactly the teacher and user pairs where the teacher's `user_fk` is the user's id |
| TeacherRepo.ProjectionKeepsColumns | src/repositories/teacher/teacherRepo.ts:7-17 | the shared column list loses nothing: two stored rows come back as the same teacher, `id` renamed `uuid`, exactly when they agree on every column of the table |
| TeacherRepo.Teachers | src/repositories/teacher/teacherRepo.ts:107 | the data query hands back one teacher per selected row, in order, each as the shared column list returns it |
| TeacherRepo.SelectSame | src/repositories/teacher/teacherRepo.ts:97 | two WHERE conditions that agree on every row select the same rows |
| TeacherRepo.SortsBeforeTotalOrder | src/repositories/teacher/teacherRepo.ts:111 | the order `ORDER BY t.created_at DESC` imposes, NULL first and then later before earlier, is total and transitive |
| TeacherRepo.NoneNewerByMultiset | src/repositories/teacher/teacherRepo.ts:111 | a bound on `created_at` in that order carries over to any rearrangement of the rows |
| TeacherRepo.InsertByCreated | src/repositories/teacher/teacherRepo.ts:111 | inserting a row into a list sorted by that order keeps it sorted and adds exactly that row |
| TeacherRepo.SortByCreated | src/repositories/teacher/teacherRepo.ts:111 | `ORDER BY t.created_at DESC` yields the same rows, those with a NULL `created_at` first (PostgreSQL puts NULLs first in a descending order), then newest first |
| TeacherRepo.NullsComeFirst | src/repositories/teacher/teacherRepo.ts:111 | in a sorted list every row before one with a NULL `created_at` has a NULL `created_at` too |
| TeacherRepo.Window | src/repositories/teacher/teacherRepo.ts:112 | `LIMIT l OFFSET o` keeps the rows from position o on, at most l of them |
| TeacherRepo.PagesTile | src/repositories/teacher/teacherRepo.ts:105-112 | two consecutive pages of one size together are the double-size page: nothing skipped, nothing repeated |
| TeacherRepo.CountQuery | src/repositories/teacher/teacherRepo.ts:100-102 | `COUNT(*)` hands back a digit string whose value is the number of joined rows the WHERE clause selects |
| TeacherRepo.DataQuery | src/repositories/teacher/teacherRepo.ts:106-115 | when the server answers, the LIMIT placeholder names an integer, and the rows returned are no more than it and no more than the rows the WHERE clause selects; a failure is the negative OFFSET, negative LIMIT or missing parameter error |
| TeacherRepo.FindAll | src/repositories/teacher/teacherRepo.ts:83-119 | one connection: the count query, then the data query with the filter values plus page size and offset, then release; the answer is the OFFSET error, the LIMIT error, or the total of active, matching teachers with the requested window of them in `ORDER BY` order, each as the column list returns it |
| TeacherRepo.FindAllOutcome | src/repositories/teacher/teacherRepo.ts:83-119 | `findAll` succeeds exactly when the offset and the page size are non-negative; otherwise it fails with the server's OFFSET error first, then the LIMIT error; on success `total` counts every active, matching teacher and `data` is the requested window of them, NULL `created_at` first and then newest first, each with `id` returned as `uuid` |
| TeacherRepo.TotalIgnoresPaging | src/repositories/teacher/teacherRepo.ts:83-102 | for any two pages whose offset and size are not negative, both lookups succeed and report the same `total` |
| TeacherRepo.FindAllPage | src/repositories/teacher/teacherRepo.ts:83-115 | when the offset and page size are not negative the lookup succeeds, and the page holds at most `pageSize` teachers in `ORDER BY` order (NULL `created_at` first, then newest first), each the projection of a stored teacher with an active user |
| TeacherRepo.PageOfMatches | src/repositories/teacher/teacherRepo.ts:106-115 | any window of the sorted matches is in `ORDER BY` order, no longer than its limit, and holds only projections of stored teachers with an active user |
| TeacherRepo.DefaultPageIsFirstHundred | src/repositories/teacher/teacherRepo.ts:83-105 | without page options the first 100 matches in `ORDER BY` order come back, projected, with the count of all matches |
| TeacherRepo.FindById | src/repositories/teacher/teacherRepo.ts:126-138 | one connection, one query; the result is null exactly when no teacher with the id has an active user; otherwise it is the projection of a stored teacher with that id and an active user, and its `uuid` is the id |
| TeacherRepo.InsertCheckMeaning | src/repositories/teacher/teacherRepo.ts:151 | the server accepts the INSERT's column list exactly when every key is a teacher column other than `created_at`, with none repeated |
| TeacherRepo.UpdateCheckMeaning | src/repositories/teacher/teacherRepo.ts:201-202 | the server accepts the UPDATE's SET list exactly when every key is a teacher column, with none repeated |
| TeacherRepo.NewTeacherColumns | src/repositories/teacher/teacherRepo.ts:151-155 | the inserted row holds each payload value, the generated id unless the payload gives one, `created_at` set to the insertion time, and NULL elsewhere |
| TeacherRepo.ExecInsert | src/repositories/teacher/teacherRepo.ts:151-153 | without a column the INSERT is a syntax error; an unresolvable RETURNING qualifier fails; a success keeps the users, appends exactly one row whose `created_at` is the insertion time, and returns that row's projection |
| TeacherRepo.InsertOne | src/repositories/teacher/teacherRepo.ts:147-159 | exactly one INSERT is sent; a failure changes nothing; a success appends one row and returns its projection |
| TeacherRepo.ExecInsertMeaning | src/repositories/teacher/teacherRepo.ts:148-156 | the INSERT of a non-empty payload succeeds exactly when the keys are insertable and the RETURNING qualifier resolves; it then appends the new row and returns its projection; valid keys under the unaliased table fail with the missing-alias error |
| TeacherRepo.InsertOneMeaning | src/repositories/teacher/teacherRepo.ts:148-158 | one INSERT is sent; it succeeds exactly when the payload inserts, appending the new row and returning its projection; on failure nothing changes; an empty payload is a syntax error |
| TeacherRepo.CreateOne | src/repositories/teacher/teacherRepo.ts:146-160 | with the alias declared, `createOne` succeeds exactly when the keys are insertable, appends the new row and returns its projection, `id` as `uuid`; on failure the transaction rolls back and the table is unchanged; the trace is one transaction around the INSERT |
| TeacherRepo.CreateOneAsWrittenNeverStores | src/repositories/teacher/teacherRepo.ts:146-160 | as written, `createOne` always fails and never changes the table; a valid payload fails on the undeclared alias `t` |
| TeacherRepo.InOrderSucceeds | src/repositories/teacher/teacherRepo.ts:174-184 | a loop that stops at the first failing step finishes exactly when every step succeeds |
| TeacherRepo.InOrderReturns | src/repositories/teacher/teacherRepo.ts:174-186 | a finished loop returns the projection of each step's row, in order |
| TeacherRepo.InOrderStores | src/repositories/teacher/teacherRepo.ts:174-184 | after a finished loop the table holds its old rows followed by each step's row, in order |
| TeacherRepo.InOrderSendsCount | src/repositories/teacher/teacherRepo.ts:174-184 | the loop sends at most one statement per step, and exactly one per step when it finishes |
| TeacherRepo.InOrderSends | src/repositories/teacher/teacherRepo.ts:174-184 | the statements the loop sends are those of its steps, in order |
| TeacherRepo.InOrderStops | src/repositories/teacher/teacherRepo.ts:174-184 | a loop that fails stops at its first failing step: the last statement sent belongs to a failing step and every earlier step succeeded |
| TeacherRepo.InsertBatch | src/repositories/teacher/teacherRepo.ts:170-172 | a batch of more than 300 is refused before any statement is sent; any batch sends statements only |
| TeacherRepo.InsertBatchSucceeds | src/repositories/teacher/teacherRepo.ts:174-186 | a batch of at most 300 goes through exactly when every item inserts |
| TeacherRepo.InsertBatchStores | src/repositories/teacher/teacherRepo.ts:174-186 | a batch that goes through returns the projection of one new row per item, in order, and the table holds those rows after its old ones |
| TeacherRepo.InsertBatchSendsCount | src/repositories/teacher/teacherRepo.ts:174-184 | a batch sends at most one INSERT per item, and exactly one per item when it goes through |
| TeacherRepo.InsertBatchSendsInOrder | src/repositories/teacher/teacherRepo.ts:174-184 | the i-th statement a batch sends is the INSERT of the i-th item |
| TeacherRepo.InsertBatchStopsAt | src/repositories/teacher/teacherRepo.ts:174-184 | a failed batch's last statement is the INSERT of an item that does not insert |
| TeacherRepo.InsertBatchStopsFirst | src/repositories/teacher/teacherRepo.ts:174-184 | every item before the one a failed batch stops at does insert |
| TeacherRepo.CreateMany | src/repositories/teacher/teacherRepo.ts:168-187 | with the alias declared, `createMany` stores all items or none: it succeeds exactly when there are at most 300 items and each has insertable keys, and then appends one new row per item, in order, and returns their projections; any failure rolls back and leaves the table unchanged; more than 300 items gives BEGIN, ROLLBACK and nothing else |
| TeacherRepo.CreateManyAsWritten | src/repositories/teacher/teacherRepo.ts:168-187 | as written, `createMany` succeeds only for the empty batch and never changes the table |
| TeacherRepo.PatchRows | src/repositories/teacher/teacherRepo.ts:200-206 | the UPDATE replaces the SET columns of exactly the rows with the id and leaves every other row as it was |
| TeacherRepo.UpdatedRows | src/repositories/teacher/teacherRepo.ts:205-208 | RETURNING reports nothing exactly when no row has the id; its first row is a row with the id, patched |
| TeacherRepo.ExecUpdate | src/repositories/teacher/teacherRepo.ts:202-205 | an unresolvable RETURNING qualifier fails with the missing-alias error; a success keeps the users and the number of teachers |
| TeacherRepo.ExecUpdateMeaning | src/repositories/teacher/teacherRepo.ts:200-208 | with the alias declared, the UPDATE of a non-empty payload succeeds exactly when its keys are updatable, and then patches the rows with the id and returns their projections |
| TeacherRepo.UpdatedRowsMeaning | src/repositories/teacher/teacherRepo.ts:208-210 | RETURNING reports a row exactly when some teacher has the id, and the first row is such a teacher, patched |
| TeacherRepo.UpdateBody | src/repositories/teacher/teacherRepo.ts:197-211 | an empty payload fails with "No data to update" before any statement; otherwise exactly one UPDATE is sent; a failure changes nothing; a success keeps the users and the number of teachers |
| TeacherRepo.UpdateBodyMeaning | src/repositories/teacher/teacherRepo.ts:197-211 | one UPDATE is sent; it succeeds exactly when the keys are updatable and a teacher has the id, then patches the rows with the id and returns the projection of one of them, patched; with valid keys and no such teacher it fails with "Update failed"; on failure nothing changes |
| TeacherRepo.Update | src/repositories/teacher/teacherRepo.ts:196-212 | with the alias declared: an empty payload fails with "No data to update" before any statement; otherwise `update` succeeds exactly when the keys are updatable and a teacher has the id; then exactly the rows with the id have the payload's columns replaced, and the result is the projection of one of them, patched; any failure rolls back and leaves the table unchanged |
| TeacherRepo.UpdateAsWrittenNeverChanges | src/repositories/teacher/teacherRepo.ts:196-212 | as written, every non-empty update fails on the undeclared alias `t` and changes nothing |
| TeacherRepo.SoftDelete | src/repositories/teacher/teacherRepo.ts:219-231 | the soft delete is one transaction around one UPDATE; it succeeds exactly when one teacher has the id and some user is its `user_fk`, and then deactivates exactly those users and keeps every teacher row; several teachers with the id give the subquery error, none gives "Soft delete failed"; failures change nothing |
| TeacherRepo.ExecSoftDelete | src/repositories/teacher/teacherRepo.ts:221-227 | a success keeps every teacher row and the number of users, leaves each user unchanged or deactivated, and with a count of 0 changes nothing |
| TeacherRepo.SoftDeleteBody | src/repositories/teacher/teacherRepo.ts:220-230 | one UPDATE bound to the id is sent; a failure changes nothing; a success keeps every teacher row and the number of users |
| TeacherRepo.SoftDeletedUserInactive | src/repositories/teacher/teacherRepo.ts:221-226 | after a soft delete no user behind the teacher is active |
| TeacherRepo.SoftDeleteHidesFromFindById | src/repositories/teacher/teacherRepo.ts:126-231 | after a soft delete `findById` returns null for that id |
| TeacherRepo.HiddenAfterSoftDelete | src/repositories/teacher/teacherRepo.ts:107-226 | after a soft delete no teacher a read can show has the deleted id as its `uuid` |
| TeacherRepo.SoftDeleteHidesFromFindAll | src/repositories/teacher/teacherRepo.ts:83-231 | after a soft delete, every page `findAll` can serve succeeds and none lists a teacher whose `uuid` is the id |
| TeacherRepo.SoftDeleteRepeats | src/repositories/teacher/teacherRepo.ts:219-231 | a second soft delete of the same teacher succeeds again: the teacher row stays and the row count includes users already inactive |

## Left out

- Logging (`logger`) is left out everywhere: it has no effect on results.
- The HTTP wiring is left out: routes, controllers, `res.status(...).json(...)` beyond status and body.
- `catchAsync` (src/middlewares/errorHandler.ts:54-58) is left out: it only forwards a rejected promise to `next`.
- Connection failures, and failures of BEGIN, COMMIT, ROLLBACK or release, are left out: the pool and the driver are not part of this model.
- Database constraints beyond the column list are left out: column types, NOT NULL, foreign keys and the unique indexes on `users`.
- The server is modelled only as far as these statements need: it checks the column names (each payload key taken as one exact column name) and the RETURNING qualifier, binds parameters, and evaluates WHERE, ORDER BY, LIMIT and OFFSET.
- `created_at` is an integer clock, and `NOW()` is a parameter.
- `ILIKE` folds ASCII letters only; collations and other case folding are left out.
- `LIMIT 1` is modelled as the first matching row in table order. The server may return any matching row, so the contracts about it say only "a matching row".
- The order of rows with equal `created_at` in `ORDER BY t.created_at DESC` is fixed by the model's insertion sort, which keeps table order among them. PostgreSQL leaves that order unspecified; the model picks one of the orders it permits.
- TeacherRepo.SortByCreated: among rows with equal `created_at` the result keeps table order; the server may return such rows in another order.
- TeacherRepo.FindAll: `data` is one of the pages the server may return; with ties in `created_at` around the window's edges the server may list other rows in their place.
- TeacherRepo.FindAllOutcome: `data` is stated for the table-order tie break, as for FindAll.
- TeacherRepo.DefaultPageIsFirstHundred: the first 100 matches are stated for the table-order tie break, as for FindAll.
- TeacherRepo.SortByCreated: a `created_at` that is neither NULL nor an integer is ordered as time 0, because the model does not type-check columns.
- Js.NumberToString: above 2^53 JavaScript prints only the shortest digits that identify the double and pads with zeros (`2**60` prints as `1152921504606847000`), where the model prints every digit of the integer, in decimal below 10^21 and in the exponent form from there on. Acceptance is unaffected: below 10^21 both are digit strings, and from 10^21 on the pattern rejects both.
- bcrypt (`genSalt`, `hash`, `compare`) is a pair of function parameters: the model states that 12 salt rounds are used, but nothing about the hash itself.
- The JWT library is a pair of function parameters: nothing is claimed about token formats, signatures or expiry checking.
- `Promise.all` over the two signatures is modelled as sequential. Either failure ends up as "Error in login", so the order does not show.
- The "User is not active" branch of `loginUser` is modelled but cannot be reached: the query already demands `is_active = TRUE`.
- The "Insert failed" branch of `createOne` is modelled but cannot be reached: an INSERT that succeeds always returns its row.
- The "there is no parameter" error of the modelled server is kept for completeness. No statement the repository builds reaches it.
- createMany's `inserted.push(rows[0])` on an empty result is not modelled separately, because a successful INSERT always returns its row.
- Numbers are integers only: fractional, NaN and infinite values are left out.
- Jwt.NormalizeExpiresIn: the contract says only that a value that is neither a string nor a number is rejected, not what the message says, because the message renders the value with JavaScript's `String()`, which the model covers only for the value kinds it has.
- ErrorHandler.StatusOf: an out-of-range numeric status (Express throws on codes outside 100-999) is left out, because the response layer is not modelled.
- ErrorHandler.HandleError: `process.env.NODE_ENV` is a parameter of each call, and the thrown value's `stack` is taken as given; the logger call is left out.
- Jwt.VerifyAccessToken: when JWT_AUDIENCE is unset, access verification passes `audience: undefined`, which the library reads as "check no audience". Signing passes the text "undefined" instead. Both are modelled this way. With JWT_AUDIENCE set to the empty string, verification passes `audience: ""`, which jsonwebtoken also treats as "check no audience" because it is falsy; the model hands the empty audience to the library parameter as given, so the two token classes are then kept apart only by their different keys.
- Valibot: the text of validation messages is a parameter. valibot's `email` and `isoDate` checks are opaque predicates.
- Valibot: string lengths are the model's sequence lengths. They stand for JavaScript's UTF-16 lengths, with no surrogate-pair handling.
- src/repositories/authRepo.ts (an older copy of the authentication repository) is not part of this model. The service imports src/repositories/auth/authRepo.ts.
- src/config/env.ts is not part of this model: the environment is a parameter of `ValidateJWTConfig`.
- TeacherSql.ParseInsert: each payload key is taken as one exact, lower-case column name, as are the keys of TeacherSql.ParseUpdate, TeacherRepo.InsertCheckMeaning and TeacherRepo.UpdateCheckMeaning, on which the success conditions of TeacherRepo.CreateOne, TeacherRepo.CreateMany and TeacherRepo.Update rest. The keys are pasted unquoted into the statement (src/repositories/teacher/teacherRepo.ts:148, 175, 200). So PostgreSQL's folding of unquoted names to lower case (a key `NAME` filling `name`) is not modelled, nor is a key holding SQL text that changes the statement. `CreateTeacher` and `UpdateTeacher` (src/interfaces/teacher/teacherInterface.ts:5-6) are the schema types, whose keys are the seven lower-case column names.
- TeacherRepo.InsertBatchSendsInOrder: the index is also bounded by the number of items. This bound is implied by InsertBatchSendsCount and is stated again so that the lemma stands alone.
- TeacherRepo.InsertBatchStopsFirst: the same redundant bound as InsertBatchSendsInOrder.

## Findings

| source | as written | input that shows it | evidently intended | confidence | as-written member | corrected member |
|---|---|---|---|---|---|---|
| src/repositories/teacher/teacherRepo.ts:146-212 | `INSERT INTO teacher ...` and `UPDATE teacher ...` return `COLUMNS`, whose every column is qualified `t.` (lines 7-17), but neither statement declares the alias `t`, so PostgreSQL answers `missing FROM-clause entry for table "t"` | any valid teacher payload to `createOne`, any non-empty batch to `createMany`, any non-empty `update` payload: each fails and rolls back | declare the alias (`INSERT INTO teacher AS t`, `UPDATE teacher AS t`), or return unqualified columns | high; not executed | TeacherRepo.CreateOneAsWrittenNeverStores, TeacherRepo.CreateManyAsWritten, TeacherRepo.UpdateAsWrittenNeverChanges | TeacherRepo.CreateOne, TeacherRepo.CreateMany, TeacherRepo.Update |
