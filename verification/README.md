# Sign-in handshake of the google-auth frontend, in Dafny

This project models the root component `AppComponent` of an Angular page. The page signs a user in to a backend with a Google ID token. The component has four fields the page binds to: `user`, `isLoggedIn`, `idToken` and `errorMsg`. It also has six handlers:

- `onSignIn` and `onSignUp` run `getIdToken`, then issue one backend request, to `/accounts/login/` or `/accounts/register/`.
- The reply callbacks of `loginUser` and `registerUser` classify the outcome three ways:
  - a success logs the user in;
  - error code 606 means the account is on the other side of the login/register boundary (a mismatch);
  - any other error becomes a message that a timer blanks 3000 ms later.
- On a mismatch the user is asked a question. A yes retries with the other operation. A no logs out.
- `logoutUser(prompt)` optionally asks for confirmation, then signs out of Google and resets the session flag and the token.

The model is a pure state machine (module `Session`). Every outside party becomes either a scripted input or an emitted `Effect`:

- the Google ceremony is a `TokenResult`;
- the backend's answer is an `Outcome`;
- the answer to `window.confirm` is a boolean;
- the sign-out is an effect;
- `setTimeout` appears as a scheduled effect plus a later `TimerElapsed` input.

The component's state also holds:

- `timers`, the number of clear timers scheduled and not yet fired;
- `pending`, the backend requests issued and not yet answered.

Module `Trace` drives the component with a finite script of inputs. The script decides:

- how each ceremony ends;
- which pending request is answered next, and how;
- what the user answers;
- when a timer fires.

So an unbounded chain of mismatch retries is exactly as long as the script. Module `Text` holds the two string operations behind the error message: the decimal rendering of an integer and upper-casing. Module `Scenarios` holds concrete scripts from the initial state, with their outcomes proved.

Token acquisition has three outcomes, following the promise structure of `getIdToken`:

- `Issued(t)`: the first auth-state event carried a token, and it replaces `idToken`.
- `StateFailed`: reading the auth state failed. The failure is caught and logged, the old token stays, and the request still goes out with it.
- `CeremonyRejected`: the sign-in popup itself failed. Nothing catches this, so the handler stops and no request is issued.

The model follows the code in places where a reader might expect tidier behaviour:

- A success does not clear `errorMsg`.
- A logout does not clear `user` or `errorMsg`.
- A failure other than a declined mismatch never changes `isLoggedIn`. A declined mismatch logs out.
- The retry after a mismatch carries the token held when the reply arrives. In an uninterrupted chain this is the token of the first request (`Trace.MismatchChainAlternates`).
- The clear timer is scheduled on every failure, including a mismatch. When it fires it blanks whatever message is shown, even one written after the timer was scheduled (`Trace.StaleTimerBlanksNewerMessage`).
- Being logged in does not imply holding a token. A failed auth-state read followed by a successful reply logs the user in with an empty token (`Scenarios.LoggedInWithoutToken`).

## Model

`Session.Issue` (sending the request, src/app/app.component.ts:46 and :77) and `Trace.Step` (routing each page action to its handler) carry no contract of their own. Their behaviour is stated through `Session.Start`, `Session.HandleReply` and `Session.Logout`, and over whole scripts through the `Trace` lemmas below.

| member | source | states |
|---|---|---|
| Session.Complement | src/app/app.component.ts:57-60 | the operation a mismatch falls through to is always the other one: login goes to register, and register goes to login |
| Session.AcquireToken | src/app/app.component.ts:37-42 | the ceremony aborts the caller exactly when the sign-in popup is rejected; an issued token replaces `idToken`; a failed auth-state read leaves the state as it was |
| Session.Start | src/app/app.component.ts:25-34 | a button press issues exactly one request of its own operation carrying the token held after acquisition, or nothing if the ceremony is rejected; only the token and the pending list change |
| Session.HandleReply | src/app/app.component.ts:45-105 | success: the returned user and the session flag, with token and message kept and nothing emitted; other code: the upper-cased `<code>: <message>` and nothing else; no code: the fixed internal-error text and nothing else; mismatch confirmed: exactly one request of the other operation with the same token; mismatch declined: logout without a second question; every failure: exactly one clear timer, as its last effect |
| Session.Logout | src/app/app.component.ts:108-121 | a declined prompt changes nothing and signs nothing out; otherwise one `signOut(true)`, preceded by the single question if one was asked, with the session flag false, the token empty, and user and message kept |
| Session.FireTimer | src/app/app.component.ts:69-71 | a firing timer blanks the message whatever it holds and changes nothing else |
| Session.ErrorText | src/app/app.component.ts:64 | the shown message contains no lower-case letter and consists of the rendered code, the separator `: ` and the upper-cased message |
| Text.ToUpper | src/app/app.component.ts:64 | upper-casing keeps the length, leaves no lower-case letter, and maps each character independently |
| Text.ToUpperIdempotent | src/app/app.component.ts:64 | upper-casing an upper-cased string changes nothing |
| Text.IntToDecimal | src/app/app.component.ts:64 | the plain decimal rendering of a code is non-empty, contains no letter to upper-case, and starts with a minus sign exactly for negative codes |
| Text.DecimalRoundTrip | src/app/app.component.ts:64 | reading back the decimal digits of a natural number gives the number |
| Text.IntDecimalRoundTrip | src/app/app.component.ts:64 | the rendering of a code is an integer literal that reads back as the same code |
| Text.IntToDecimalInjective | src/app/app.component.ts:64 | two different codes never render alike |
| Trace.HandleReplyCounts | src/app/app.component.ts:51-72 | per reply: one clear timer for each failure and none for a success; a request only for a confirmed mismatch, and exactly one then; a sign-out only for a declined mismatch |
| Trace.LogoutCounts | src/app/app.component.ts:108-121 | a logout emits no request and no timer, and exactly one sign-out unless the prompt was declined |
| Trace.StartCounts | src/app/app.component.ts:25-34 | a button press emits exactly one request unless the ceremony is rejected, and no timer |
| Trace.FireTimerCounts | src/app/app.component.ts:69-71 | a firing emits one clearing when a timer was pending, and no request |
| Trace.StepCounts | src/app/app.component.ts:25-121 | for every input, timers pending plus timers fired is conserved, and the requests equal the button presses plus the confirmed mismatches |
| Trace.RunTimerAccounting | src/app/app.component.ts:69-71 | over any script, every scheduled clear timer is either still pending or has fired exactly once |
| Trace.RunCallAccounting | src/app/app.component.ts:25-61 | over any script, the backend requests are exactly the accepted button presses plus the confirmed mismatches |
| Trace.AttemptCallBound | src/app/app.component.ts:53-61 | within one sign-in or sign-up attempt, at most one request more than the confirmed mismatches |
| Trace.StepTokenChanges | src/app/app.component.ts:25-121 | the token changes only when a ceremony issues a new one, or when a logout blanks it together with a Google sign-out |
| Trace.RunKeepsUserInvariant | src/app/app.component.ts:47-50 | over any script, a logged-in page always holds a user record |
| Trace.MismatchChainAlternates | src/app/app.component.ts:53-60 | `n` confirmed mismatches issue exactly `n` requests that alternate between the two operations, all carrying the same token; nothing else changes but the pending request and the timer count |
| Trace.AttemptAlternates | src/app/app.component.ts:25-60 | a button press followed by `n` confirmed mismatches issues `n + 1` alternating requests, all carrying the one ceremony's token |
| Trace.DeclinedMismatchLogsOut | src/app/app.component.ts:57-62 | a declined mismatch asks exactly one question and signs out exactly once, leaving no session and no token, with user and message as before |
| Trace.MismatchResolvedBySuccess | src/app/app.component.ts:53-59 | a confirmed mismatch followed by a success of the other operation logs the user in with the returned record and the one token, after exactly one request of each operation, both carrying that token |
| Trace.ConfirmIgnoredUnlessMismatch | src/app/app.component.ts:52-68 | the answer to the mismatch dialog has no influence on any reply but a mismatch |
| Trace.CodedFailureAttempt | src/app/app.component.ts:63-65 | a sign-in whose reply carries a non-mismatch code keeps the new token, shows the code's message, and leaves the session flag and the user as they were |
| Trace.StaleTimerBlanksNewerMessage | src/app/app.component.ts:69-71 | after two failures in a row, the first timer to fire blanks the second failure's message while a timer is still pending |
| Scenarios.Renders412 | src/app/app.component.ts:64 | the code 412 renders as `412` |
| Scenarios.BannedText | src/app/app.component.ts:64 | code 412 with message `banned` is shown as `412: BANNED` |
| Scenarios.BannedShownThenCleared | src/app/app.component.ts:63-71 | a login rejected with 412 `banned` shows `412: BANNED`, leaves the page logged out, and shows nothing once the timer fires |
| Scenarios.SignInMismatchThenRegister | src/app/app.component.ts:53-59 | sign-in, mismatch, yes, and a successful registration leave the page logged in as the returned user, after exactly one login and one register request, both with the ceremony's token |
| Scenarios.SignUpMismatchDeclined | src/app/app.component.ts:84-92 | sign-up, mismatch, no leave the page logged out with no token after exactly one sign-out |
| Scenarios.LoggedInWithoutToken | src/app/app.component.ts:37-50 | after a failed auth-state read from the initial page, the request goes out with the empty token, and a success leaves the page logged in holding no token |

## Left out

- `AuthenticationService` (src/app/authentication.service.ts) is not modelled. It covers the HTTP transport, the `retry(3)` resubscription and `catchError`, which forwards the error body. Their combined effect is taken as the scripted `Outcome` of a request.
- The module wiring and the Google client-ID configuration are left out. They hold no logic.
- The Google SDK, `window.confirm`, `console.log` and rxjs are modelled only through their results: a `TokenResult`, a boolean answer, and an `Outcome` per request. The dialog texts are reduced to the kind of question asked.
- Timing and concurrency are left out. The 3000 ms delay is carried on the `ClearTimerScheduled` effect, but the order in which timers fire and replies arrive is whatever the script says. Promise microtask ordering is not modelled.
- Text.IntToDecimal: renders every integer in plain decimal, which matches JavaScript's rendering only for codes of magnitude at most 2^53. Between 2^53 and 10^21, JavaScript prints the shortest digits that identify the double, padded with zeros (2^64 shows as `18446744073709552000`). From 10^21 on, it uses exponent form (`1e+21`, shown as `1E+21`). The model produces neither.
- Text.ToUpper: upper-cases ASCII letters only, not the full Unicode case mapping of `toUpperCase`.
- Session.HandleReply: models an `errorCode` only as an integer. A payload whose `errorCode` is present but is not a number (a string `"606"`, `null`) would be rendered through its own string form. The model has no such payload.
- Session.HandleReply: assumes the error payload is an object. For a non-object payload, the `in` test would throw inside the callback, and then no message or timer would follow. This is not modelled.
- Session.AcquireToken: `StateFailed` also covers an auth-state event with no user, whose token read throws inside the same caught promise. The model does not distinguish the two.
- `User` (src/app/User.ts) is not part of this model. The record is opaque here: an id and a name that the component stores without reading them.
- The `title` field and the page template are not modelled. The component's logic never touches them.
- Trace.Step: a reply to a request that is not pending, and a timer firing when none is scheduled, change nothing. A real environment cannot produce either input.
