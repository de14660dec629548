# Authentication core of classrooms-api, in Dafny

This project models the authentication routes of the classrooms-api service
(`src/routes/auth.ts`). The account table is a finite map from username to
account. The JWT library, the clock and the database's insert outcome are
parameters. Everything else is pure functions over immutable data.

It covers four pieces, each a module:

- **Username allocation** (`Allocator`, built on `Text`).
  - The seed is the lower-cased first character of the first name followed by the lower-cased last name.
  - While the candidate is taken, it is rewritten. A candidate with a digit becomes its `[a-z]` letters followed by the value of its *first* digit run plus one. A candidate without a digit gets `1` appended.
  - The model proves that the result is free, and that a free seed is returned unchanged.
  - It proves that after at most one rewrite, candidates share one stem and carry consecutive numbers. So they are pairwise distinct, and the loop takes at most as many rewrites as there are accounts. With exact integer arithmetic every finite table therefore ends the loop.
  - The code reads and increments the number as an IEEE 754 double, which agrees with exact arithmetic only below 2^53. Between 2^53 and 2^54 the increment is lost for every multiple of 4, so the loop can spin forever on a taken name (`Doubles`, and the Findings below). Other runs in that range move by 2 or fall back to a neighbouring double; from 2^54 on, `+ 1` never changes a double.
  - It proves the closed forms `alovelace`, `alovelace1`, `alovelace2`, …
- **Account creation** (`Creation`). `createAccount` allocates a username, then inserts exactly one account under it, or fails with the insert's fixed message.
- **Credential checking** (`Credentials`). An unknown user is reported before a wrong password. On success the token carries the username and an expiry of the current second plus 3600. The token is the signer's output for that payload.
- **Middleware and routes** (`Http`, `Middleware`, `Validation`, `Routes`).
  - The session resolver's four ordered outcomes, and its catch-all `Unauthorized`.
  - The role guard: students are refused; a missing identity gets `Unauthorized.`; anyone else passes through unchanged.
  - The two request schemas, with their issue messages joined by single spaces.
  - `/login`, `/create_account`, `/me` and `/logout`, with lemmas that connect them:
    - a created account can log in;
    - after login, `/me` shows the account;
    - after logout, `/me` reports that nobody is signed in;
    - `/me` agrees with the resolver;
    - a student can never create an account.

Some consequences of the code that are easy to miss:

- **Which digit run is incremented.** The rewrite increments the *first* digit run of the candidate and keeps only its lower-case ASCII letters.
  - So `a1b` is rewritten to `ab2`, and `o'brien1` to `obrien2`.
  - A candidate with digits but no letters gets the literal prefix `undefined`, which is what joining an absent regex match yields.
- **Password and name rules.** The request schemas only require each field to be non-empty.

## Model

| member | source | states |
|---|---|---|
| Allocator.Seed | src/routes/auth.ts:137-139 | The seed has one character more than the last name. That character is the lower-cased first character of the first name, and the rest is the lower-cased last name. An empty first name contributes nothing. |
| Allocator.StemShape | src/routes/auth.ts:154-157 | The letters kept by a rewrite are a non-empty run of lower-case letters with no digit. They are the candidate's own `[a-z]` letters whenever it has any. |
| Allocator.StepProgress | src/routes/auth.ts:147-161 | A rewrite always produces a candidate with a digit and keeps the stem. From a candidate with a digit, the number goes up by exactly one. |
| Allocator.StepCanonical | src/routes/auth.ts:149-157 | Stem plus decimal n is rewritten to stem plus decimal n+1. So `ab1` becomes `ab2`, never `ab11`. |
| Allocator.StepDecomposed | src/routes/auth.ts:149-157 | For letters-without-digits, a digit run, and a rest not starting with a digit, the rewrite is the letters of head and rest, followed by the run's value plus one. |
| Allocator.ValueBound | src/routes/auth.ts:151-152 | A taken candidate's number is below 10 to the power of the longest username's length. This bounds how far the loop can climb. |
| Allocator.FirstFree | src/routes/auth.ts:141-168 | For any rewrite that adds a digit and counts up, the loop's result is not in the table. It differs from the start only if the start was taken, and then it has a digit. |
| Allocator.AllocateFrom | src/routes/auth.ts:141-168 | With the code's rewrite, the result is free. A free start is returned as is. Any other result has a digit and comes from a taken start. |
| Allocator.CheckAndCreateUsername | src/routes/auth.ts:133-169 | The allocated username is never a key of the table. A free seed is returned with no rewrite. Any other result has a digit and the seed was taken. |
| Allocator.FirstFreeIsCandidate | src/routes/auth.ts:147-167 | The result is the candidate reached after exactly the number of lookups that found an account. |
| Allocator.EarlierCandidatesTaken | src/routes/auth.ts:147-167 | Every candidate tried before the result was in the table. |
| Allocator.CandidateValue | src/routes/auth.ts:147-161 | From the first rewrite on, every candidate has a digit, and its number is the earlier number plus the count of rewrites between them. |
| Allocator.CandidatesDistinct | src/routes/auth.ts:147-167 | No candidate is ever tried twice. |
| Allocator.VisitedSize | src/routes/auth.ts:147-167 | The first k candidates form a set of exactly k usernames. |
| Allocator.RewritesBound | src/routes/auth.ts:147-167 | The loop rewrites at most as many times as the table has accounts. |
| Allocator.CandidateStem | src/routes/auth.ts:154-157 | Every candidate keeps the seed's stem. |
| Allocator.CandidateClosedForm | src/routes/auth.ts:147-161 | From the second rewrite on, the k-th candidate is the stem followed by the first rewrite's number plus k-1. |
| Allocator.LetterSeedCandidates | src/routes/auth.ts:147-161 | For an all-letter seed, the k-th candidate is the seed followed by decimal k. |
| Allocator.LetterSeedAllocation | src/routes/auth.ts:141-168 | For an all-letter seed, if the seed and seed1 … seed(k-1) are taken and seed k is free, the result is seed k. |
| Allocator.AdaLovelaceSeed | src/routes/auth.ts:137-139 | Ada Lovelace is seeded as `alovelace`. |
| Allocator.AdaLovelaceTakenOnce | src/routes/auth.ts:141-168 | With `alovelace` taken and `alovelace1` free, Ada Lovelace gets `alovelace1`. |
| Allocator.AdaLovelaceFree | src/routes/auth.ts:137-147 | With `alovelace` free, Ada Lovelace gets `alovelace` with no rewrite. |
| Allocator.AdaLovelaceTakenTwice | src/routes/auth.ts:141-168 | With `alovelace` and `alovelace1` taken and `alovelace2` free, Ada Lovelace gets `alovelace2`. |
| Text.FirstDigitRunFound | src/routes/auth.ts:149-152 | The first digit run is non-empty exactly when the candidate has a digit. So the regex match always exists where the loop reads it. |
| Text.ParseDecimal | src/routes/auth.ts:152-157 | Reading back the decimal text of n gives n. |
| Text.DecimalParse | src/routes/auth.ts:152-157 | A digit run without a leading zero is the decimal text of its own value. |
| Text.LowerLettersShape | src/routes/auth.ts:155 | The letters kept are lower-case letters drawn from the candidate. Every lower-case letter of the candidate is kept, as often as it occurs there, and nothing else is. |
| Text.LettersOfChar | src/routes/auth.ts:155 | A single character is kept exactly when it is a lower-case ASCII letter. |
| Text.LettersAppend | src/routes/auth.ts:155 | The letters of a concatenation are the letters of each part, in order; with the single-character case this fixes the filter on every text. |
| Text.DecimalLeadingDigit | src/routes/auth.ts:157 | The decimal text of a number starts with `0` exactly when the number is 0. |
| Text.ToUpperOfToLower | src/routes/auth.ts:22 | Upper-casing ignores any earlier lower-casing, so the role check after `toUpperCase` does not depend on the letter case of the input. |
| Text.JoinLength | src/routes/auth.ts:179-183 | The joined message is the total length of the issue messages plus one separator between each pair of neighbours. |
| Accounts.ParseRoleName | src/routes/auth.ts:20-25 | Any text whose upper-cased form is a role's name, in whatever case it was written, is accepted as that role. |
| Accounts.ProjectForgetsOnlyPassword | src/routes/auth.ts:41-51 | Two accounts have the same projection exactly when they agree on every field but the password. |
| Accounts.FindByUsername | src/routes/auth.ts:41-45 | A found account is stored in the table; nothing is found only when no key is the username; in a well-formed table the found account carries the username looked up. |
| Accounts.ParseRole | src/routes/auth.ts:20-25 | A role is accepted exactly when the upper-cased input is the name of an enum member, and the accepted member is that one. |
| Creation.CreateAccount | src/routes/auth.ts:108-131 | On a failed insert, the result is the fixed creation-error message. Otherwise the returned username is the one the allocation loop yields for these names, and it was free. The table then gains exactly that key, holding the given password, names and role. Every other account is unchanged. |
| Creation.CreatePreservesWellFormed | src/routes/auth.ts:114-130 | Creation keeps every key naming its own account. It adds exactly one account, and the returned username can be looked up. |
| Credentials.EpochSeconds | src/routes/auth.ts:97 | The whole-seconds value is the floor of the millisecond clock divided by 1000. |
| Credentials.Expiry | src/routes/auth.ts:97 | The expiry lies 3600 seconds after the second that contains the current instant. |
| Credentials.ExpiryMonotone | src/routes/auth.ts:97 | A later clock never gives an earlier expiry. |
| Credentials.CheckAuthCredentials | src/routes/auth.ts:77-106 | Success exactly when the username is known and its stored password is equal. An unknown username gives `Could not find username.` whatever the password. A known username with another password gives `Incorrect password.` On success the payload carries the input username and the sixty-minute expiry, and the token is the signer's output for that payload. |
| Http.ApplyCookie | src/routes/auth.ts:194-198 | After a response, the browser holds a usable token exactly when the response set a non-empty one, or left the cookie alone and a usable one was already there. |
| Middleware.ResolveSession | src/routes/auth.ts:33-51 | The four outcomes, each given exactly when its condition holds, in order: no or empty token; rejected token; unknown username; proceed. Proceeding attaches the password-free projection of the token's account. |
| Middleware.ResolvedIdentityIsTokenOwner | src/routes/auth.ts:41-51 | In a well-formed table, the attached identity is the one named by the token and is the projection of a stored account. |
| Middleware.VerifyTokenFromCookie | src/routes/auth.ts:29-56 | A rejected session answers 401 with the resolver's message and leaves the table alone. Otherwise the downstream handler's outcome is returned, or 401 `Unauthorized` if it throws. The table can change only when a session was resolved. |
| Middleware.CheckRole | src/routes/auth.ts:58-75 | No identity: 401 `Unauthorized.`. A student: 401 with the account-creation refusal. Anyone else: the downstream outcome with the identity passed on unchanged, or 401 `Unauthorized.` if downstream throws. |
| Validation.IssuesMember | src/routes/auth.ts:176-186 | A message is reported exactly when some check carrying it fails. |
| Validation.IssuesAppend | src/routes/auth.ts:176-186 | Issue messages keep field order: the issues of earlier fields come first. |
| Validation.ValidateCredentials | src/routes/auth.ts:11-14 | Login input is accepted exactly when both username and password are non-empty, and is passed on as given. Otherwise the error is the failing fields' messages joined by spaces. |
| Validation.CredentialMessages | src/routes/auth.ts:176-186 | The three failing login inputs give `Username is required. Password is required.`, `Username is required.` and `Password is required.` respectively. |
| Validation.ValidateCreation | src/routes/auth.ts:16-26 | Account-creation input is accepted exactly when password, first and last name are non-empty and the role is present and recognised. The accepted role's name is the upper-cased input. |
| Validation.CreationIssues | src/routes/auth.ts:16-26 | Each creation message is reported exactly when its field fails. `Role is required.` is reported for an absent role, and `Invalid role value.` for an unrecognised one. |
| Validation.CreationIssuesOrder | src/routes/auth.ts:16-26 | The role reports at most one issue, and it comes after every field issue. |
| Routes.Login | src/routes/auth.ts:171-209 | 400 with the joined issues exactly when a field is empty. 200 exactly when the credentials match, with the success message and the signed token set as a one-day cookie. Otherwise 401: `Could not find username.` for an unknown username, `Incorrect password.` for a known one with another password. Only a 200 touches the cookie. |
| Routes.CreateHandler | src/routes/auth.ts:213-250 | 400 exactly when validation fails, with the failing fields' messages joined by spaces. Exactly 401 with the creation-error message, and the table unchanged, when the body is valid and the insert fails. On 200 the response is exactly the success message naming the username, with the cookie left alone; that username is the one the allocation loop yields for these names, was free and is now stored with the given password, names and upper-cased role, and nothing else changed. |
| Routes.CreateAccountRoute | src/routes/auth.ts:212-251 | 200 exactly when a session resolves to a non-student and the body validates and the insert succeeds. Every other answer leaves the table unchanged. |
| Routes.StudentCannotCreateAccount | src/routes/auth.ts:58-67 | A signed-in student always gets 401 `You are unauthorized to create an account.` and the table is unchanged. |
| Routes.SignedOutCannotCreateAccount | src/routes/auth.ts:33-48 | Without a resolvable session, the answer is 401 with one of the resolver's three messages, whatever the body. |
| Routes.CreateAccountNeverFallsThrough | src/routes/auth.ts:58-75 | For a request body that parses as JSON, the guard's catch-all `Unauthorized.` answer never occurs on this route. |
| Doubles.Spacing | src/routes/auth.ts:152 | Neighbouring doubles around an integer are at least 1 apart, and exactly 1 below 2^53. |
| Doubles.RoundToDouble | src/routes/auth.ts:152-157 | Below 2^53 rounding to a double leaves an integer unchanged. |
| Doubles.StepAsWrittenBelowTwo53 | src/routes/auth.ts:149-157 | While the incremented number stays below 2^53, the step on doubles is the exact rewrite. |
| Doubles.DoubleSuccessorStalls | src/routes/auth.ts:152-157 | `2^53 + 1` on doubles is 2^53 again. |
| Doubles.DoubleSuccessorStallsInBinade | src/routes/auth.ts:152-157 | For every multiple of 4 from 2^53 up to 2^54, `+ 1` on doubles gives the same number back. |
| Doubles.StepAsWrittenFixedPoint | src/routes/auth.ts:149-157 | A lower-case stem followed by such a number is rewritten, on doubles, to itself. |
| Doubles.FixedPointRepeats | src/routes/auth.ts:147-167 | A candidate the rewrite maps to itself is every later candidate as well. |
| Doubles.AsWrittenLoopNeverExits | src/routes/auth.ts:147-167 | Once a stem followed by such a number is taken, every candidate the loop looks up is that taken name, so the loop never exits. |
| Doubles.ExactStepMovesOn | src/routes/auth.ts:149-157 | With exact arithmetic, a stem followed by n is rewritten to the stem followed by n+1, which is a different name, so the loop always reaches a new candidate. |
| Doubles.StallingSeed | src/routes/auth.ts:137-139 | First name `A` and a last name of `B` followed by digits are seeded as `ab` followed by the same digits; with the digits of 2^53 this is the example's seed `ab9007199254740992`. |
| Doubles.ExampleCandidates | src/routes/auth.ts:157 | `ab` followed by 2^53 and by 2^53 + 1 reads `ab9007199254740992` and `ab9007199254740993`. |
| Doubles.AsWrittenStallsOnExample | src/routes/auth.ts:147-167 | With `ab9007199254740992` taken, the loop as written tries that name at every turn. |
| Doubles.ExactStepPastTwo53 | src/routes/auth.ts:149-157 | The exact rewrite moves from `ab9007199254740992` on to `ab9007199254740993`. |
| Routes.CreationIssuesAreMessages | src/routes/auth.ts:217-227 | A failed creation validation never yields the text `Unauthorized.`. |
| Routes.Me | src/routes/auth.ts:253-289 | No or empty token: 401 `You are not signed in.`. Rejected token: 401 with the verifier's message. Otherwise 200, whose body is the projection of the token's account when it exists and `null` exactly when it is gone. The cookie is never touched. |
| Routes.MeAgreesWithResolver | src/routes/auth.ts:253-289 | `/me` shows an identity exactly when the session resolver would attach it. It shows `null` exactly when the resolver reports `Could not find your session.` |
| Routes.Logout | src/routes/auth.ts:291-297 | 200 with `Logged out successfully!` and the token cookie cleared. |
| Routes.LogoutThenMe | src/routes/auth.ts:291-297 | After the logout response is applied to any cookie jar, `/me` answers 401 `You are not signed in.` |
| Routes.LoginThenMe | src/routes/auth.ts:192-198 | Take a verifier that accepts exactly what the signer issues. After a successful login, `/me` shows the account that logged in. |
| Routes.CreateThenLogin | src/routes/auth.ts:114-130 | A freshly created account can log in at once, with its password and the username the creation reported. |

## Left out

- **Database access.** It is a finite map, so the model has no database errors.
  - Only the insert's failure is modelled, as a boolean parameter.
  - A failing lookup inside the allocation loop, or in the session resolver, is not modelled. In the resolver it would also end in `Unauthorized`.
- **JWT internals.** Signing and verification are parameters. The secret, its fallback, HMAC and the check of the `exp` claim happen inside the library and are not part of this model.
- **Malformed payloads.** A verified payload without a `username` claim is not modelled. That case would make the lookup run with an undefined filter.
- **The clock.** `Date.now()` is a parameter in milliseconds.
- **HTTP plumbing.** Hono routing, request-body parsing errors, the JSON encoding, cookie attributes other than `maxAge`, and CORS are not modelled. Neither is the rest of the service: bootstrap, mounting and `src/routes/courses.ts`.
- **Concurrency.** Allocation and insert do not run atomically, but the model is sequential.
- **Password rotation and strength rules.** The code has neither, so neither is modelled.
- **Case mapping.** `toLowerCase` and `toUpperCase` are modelled on ASCII letters only; other characters are left unchanged.
- **Unicode.** Strings are sequences of Unicode characters, while JavaScript strings are UTF-16 code units. So `charAt(0)` of a first name that starts outside the Basic Multilingual Plane gives half a surrogate pair in the code, but the whole character in the model.
- **Zod's default messages for absent fields.** The name and password fields are modelled as present strings. Only the role's absence, with its own message, is modelled.
- **Role values.** The `Role` enum's declaration is not part of this model. It is taken to be `STUDENT`, `INSTRUCTOR` and `ADMIN`. Only `STUDENT` is named by the code.
- **Number precision.** `Allocator` reads and writes numbers as unbounded naturals. `Doubles` adds the rounding of `parseInt` and of the `+ 1` to the nearest double. It does not model the following:
  - `toString` on a double from 2^53 on: it prints the shortest digits that round back to that double, and from 10^21 it switches to exponent notation. The model prints the exact value, which is the same for the doubles the example reaches.
  - `parseInt` of more than about 20 significant digits, which engines may approximate, and its overflow to `Infinity`.
- Routes.CreateAccountRoute: throws from downstream. The route assumes an exception thrown further down reaches the middleware's own `catch`. Whether Hono's dispatcher intercepts such an exception first is library behaviour, not part of this model.
- **Unparsable request bodies.** On `/create_account` the body is read with `c.req.json()` (src/routes/auth.ts:214) before the handler's `try`. A body that is not JSON makes that call throw out of the handler, and under the propagation assumed above `checkRole`'s catch would answer 401 `Unauthorized.`. Body parsing is not modelled, so Routes.CreateAccountNeverFallsThrough holds only for bodies that parse.
- **`catch` blocks for failures outside the model.** `/logout`'s `catch` answers 401 with the error's message if `deleteCookie` or `c.json` throws. The model has no such failure, so Routes.Logout always answers 200. The "Unknown error occurred." fallbacks handle non-`Error` throws, which nothing modelled produces.

## Findings

| source | as written | input that shows it | evidently intended | confidence | as-written member | corrected member |
|---|---|---|---|---|---|---|
| src/routes/auth.ts:151-157 | The first digit run is read with `parseInt` and incremented with `+ 1`, both on doubles. From 2^53 on the increment can round back to the same value (for every multiple of 4 below 2^54 it does), so the rewritten candidate equals the taken one and the lookup loop never ends. Doubles.AsWrittenStallsOnExample applies this to the example. | First name `A`, last name `B9007199254740992`, with `ab9007199254740992` already taken: every rewrite yields `ab9007199254740992` again. | The next candidate is `ab9007199254740993` (Doubles.ExactStepPastTwo53), and the loop ends on every finite table (Allocator.RewritesBound). | not executed | Doubles.AsWrittenLoopNeverExits | Doubles.ExactStepMovesOn |
