/** The state and the handlers of the sign-in component: the four fields the
    page binds to, and what each handler does to them. Every external effect
    (the identity provider, the backend, the confirmation dialog, the clear
    timer) is either a scripted input of a handler or an `Effect` it emits. */
module Session {
  import opened Text

  datatype Option<+T> = None | Some(value: T)

  /** The record the backend returns on success; the component never looks
      inside it, it only stores it. */
  datatype User = User(id: string, name: string)

  /** The two backend operations, `/accounts/login/` and `/accounts/register/`. */
  datatype Op = Login | Register

  /** The operation a mismatch reply offers to fall through to. */
  function Complement(op: Op): (r: Op)
    ensures r != op
  {
    match op
    case Login => Register
    case Register => Login
  }

  /** The error code by which the backend reports that the account exists on
      the other side of the login/register boundary. */
  const AccountMismatch: int := 606

  /** The message shown for a failure that carries no error code. */
  const InternalErrorText: string := "500: INTERNAL SERVER ERROR"

  /** Delay of the timer that blanks the error message, in milliseconds. */
  const ClearDelayMs: nat := 3000

  /** What a backend call finally yields: the user, or the error payload,
      which may or may not have an `errorCode` field. `message` is the text
      the payload's `message` field renders as inside a template literal; a
      payload without that field renders as `undefined`, so a script stands
      for it with the message "undefined" (shown as `412: UNDEFINED`). */
  datatype Outcome = Ok(user: User) | Err(errorCode: Option<int>, message: string)

  /** How the Google ceremony ended. `Issued`: the first auth-state event
      carried a token. `StateFailed`: reading the auth state failed; the
      failure is caught and logged. `CeremonyRejected`: the sign-in popup
      itself failed; nothing catches that, so the handler stops there. */
  datatype TokenResult = Issued(token: string) | StateFailed | CeremonyRejected

  /** The three questions the component can put to `window.confirm`. */
  datatype Prompt = NotRegistered | AlreadyRegistered | ConfirmLogout

  /** What the component does to the outside world, in order. */
  datatype Effect =
    | BackendCall(op: Op, token: string)
    | Confirm(prompt: Prompt, answer: bool)
    | SignOut(revoke: bool)
    | ClearTimerScheduled(delayMs: nat)
    | ErrorCleared

  /** The component's fields. `user` is absent until the first success;
      `timers` counts the clear timers scheduled and not yet fired;
      `pending` holds the backend calls issued and not yet answered. */
  datatype State = State(
    user: Option<User>,
    isLoggedIn: bool,
    idToken: string,
    errorMsg: string,
    timers: nat,
    pending: seq<Op>)

  datatype Transition = Transition(state: State, effects: seq<Effect>)

  function Initial(): State {
    State(None, false, "", "", 0, [])
  }

  /** The confirmation asked when a reply to `op` reports a mismatch. */
  function MismatchPrompt(op: Op): Prompt {
    if op == Login then NotRegistered else AlreadyRegistered
  }

  /** The message shown for an error payload with a code: the template
      `<code>: <message>`, upper-cased. The code's digits and sign and the
      separator are unaffected by upper-casing, so only the message changes. */
  function ErrorText(code: int, message: string): (r: string)
    ensures NoLowerAscii(r)
    ensures r == IntToDecimal(code) + ": " + ToUpper(message)
  {
    var prefix := IntToDecimal(code) + ": ";
    assert NoLowerAscii(prefix);
    ToUpperAppend(prefix, message);
    ToUpperKeepsNoLower(prefix);
    ToUpper(prefix + message)
  }

  /** `getIdToken`: `None` when the ceremony's rejection aborts the caller,
      otherwise the state with the token it obtained, if any. */
  function AcquireToken(s: State, r: TokenResult): (a: Option<State>)
    ensures a.None? <==> r.CeremonyRejected?
    ensures r.Issued? ==> a == Some(s.(idToken := r.token))
    ensures r.StateFailed? ==> a == Some(s)
  {
    match r
    case Issued(token) => Some(s.(idToken := token))
    case StateFailed => Some(s)
    case CeremonyRejected => None
  }

  /** `loginUser` / `registerUser` up to the subscription: one request
      carrying the token held at this moment. */
  function Issue(s: State, op: Op): Transition {
    Transition(s.(pending := s.pending + [op]), [BackendCall(op, s.idToken)])
  }

  /** `onSignIn` (op = Login) and `onSignUp` (op = Register): acquire a token,
      then issue exactly one call with whatever token is then held. */
  function Start(s: State, op: Op, r: TokenResult): (t: Transition)
    ensures r.CeremonyRejected? ==> t == Transition(s, [])
    ensures !r.CeremonyRejected? ==>
      t.effects == [BackendCall(op, t.state.idToken)] &&
      t.state.pending == s.pending + [op]
    ensures r.Issued? ==> t.state.idToken == r.token
    ensures !r.Issued? ==> t.state.idToken == s.idToken
    ensures t.state.(idToken := s.idToken, pending := s.pending) == s
  {
    match AcquireToken(s, r)
    case None => Transition(s, [])
    case Some(s') => Issue(s', op)
  }

  /** `logoutUser(prompt)`. `confirm` is the dialog's answer; it is consulted
      only when `prompt` is set. */
  function Logout(s: State, prompt: bool, confirm: bool): (t: Transition)
    // declined: nothing changes and Google is not signed out of
    ensures prompt && !confirm ==> t.state == s && t.effects == [Confirm(ConfirmLogout, false)]
    // otherwise: one sign-out, preceded by the one question if there was one;
    // the session flag and the token are reset, user and message are kept
    ensures !prompt || confirm ==>
      && t.state == s.(isLoggedIn := false, idToken := "")
      && |t.effects| == (if prompt then 2 else 1)
      && t.effects[|t.effects| - 1] == SignOut(true)
      && (prompt ==> t.effects[0] == Confirm(ConfirmLogout, true))
  {
    if prompt && !confirm then
      Transition(s, [Confirm(ConfirmLogout, false)])
    else
      var asked := if prompt then [Confirm(ConfirmLogout, true)] else [];
      Transition(s.(isLoggedIn := false, idToken := ""), asked + [SignOut(true)])
  }

  /** Both error callbacks end by scheduling one clear timer. */
  function ScheduleClear(t: Transition): Transition {
    Transition(t.state.(timers := t.state.timers + 1), t.effects + [ClearTimerScheduled(ClearDelayMs)])
  }

  /** The subscription callbacks of `loginUser` (op = Login) and
      `registerUser` (op = Register) for one reply. `s` no longer lists the
      answered call as pending; `confirm` is the answer the mismatch dialog
      would give. */
  function HandleReply(s: State, op: Op, o: Outcome, confirm: bool): (t: Transition)
    // success: the returned user, logged in; token and message untouched
    ensures o.Ok? ==>
      t.state == s.(user := Some(o.user), isLoggedIn := true) && t.effects == []
    // every failure schedules exactly one clear timer, as its last effect
    ensures o.Err? ==>
      && |t.effects| >= 1
      && t.effects[|t.effects| - 1] == ClearTimerScheduled(ClearDelayMs)
      && (forall i :: 0 <= i < |t.effects| - 1 ==> !t.effects[i].ClearTimerScheduled?)
      && t.state.timers == s.timers + 1
    // a code other than the mismatch code is shown, nothing else changes
    ensures o.Err? && o.errorCode.Some? && o.errorCode.value != AccountMismatch ==>
      && t.state == s.(errorMsg := ErrorText(o.errorCode.value, o.message), timers := s.timers + 1)
      && t.effects == [ClearTimerScheduled(ClearDelayMs)]
    // no code at all: the fixed internal-error text, nothing else changes
    ensures o.Err? && o.errorCode.None? ==>
      && t.state == s.(errorMsg := InternalErrorText, timers := s.timers + 1)
      && t.effects == [ClearTimerScheduled(ClearDelayMs)]
    // mismatch accepted: one call of the other operation with the same token
    ensures o.Err? && o.errorCode == Some(AccountMismatch) && confirm ==>
      && t.state == s.(pending := s.pending + [Complement(op)], timers := s.timers + 1)
      && t.effects == [Confirm(MismatchPrompt(op), true), BackendCall(Complement(op), s.idToken),
                       ClearTimerScheduled(ClearDelayMs)]
    // mismatch declined: logout without a second question
    ensures o.Err? && o.errorCode == Some(AccountMismatch) && !confirm ==>
      && t.state == s.(isLoggedIn := false, idToken := "", timers := s.timers + 1)
      && t.effects == [Confirm(MismatchPrompt(op), false), SignOut(true), ClearTimerScheduled(ClearDelayMs)]
  {
    match o
    case Ok(u) => Transition(s.(user := Some(u), isLoggedIn := true), [])
    case Err(code, message) =>
      var handled :=
        if code.None? then
          Transition(s.(errorMsg := InternalErrorText), [])
        else if code.value == AccountMismatch then
          var next := if confirm then Issue(s, Complement(op)) else Logout(s, false, false);
          Transition(next.state, [Confirm(MismatchPrompt(op), confirm)] + next.effects)
        else
          Transition(s.(errorMsg := ErrorText(code.value, message)), []);
      ScheduleClear(handled)
  }

  /** The callback of one clear timer: it blanks the message whatever it is.
      A firing with no timer pending cannot happen and changes nothing. */
  function FireTimer(s: State): (t: Transition)
    ensures s.timers > 0 ==>
      t.state == s.(errorMsg := "", timers := s.timers - 1) && t.effects == [ErrorCleared]
    ensures s.timers == 0 ==> t == Transition(s, [])
  {
    if s.timers == 0 then Transition(s, [])
    else Transition(s.(errorMsg := "", timers := s.timers - 1), [ErrorCleared])
  }
}
