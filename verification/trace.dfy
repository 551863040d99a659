/** The component driven by a finite script of inputs. A script fixes every
    outside decision: how each Google ceremony ends, which pending request
    the backend answers next and with what, what the user answers to each
    dialog, and when a clear timer fires. A chain of mismatch replies is as
    long as the script makes it. */
module Trace {
  import opened Text
  import opened Session

  /** One thing that happens to the component. `Reply(k, o, c)`: the backend
      answers the `k`-th pending request with `o`, and `c` is what the user
      would answer to a mismatch dialog. */
  datatype Input =
    | SignIn(token: TokenResult)
    | SignUp(token: TokenResult)
    | Reply(call: nat, outcome: Outcome, confirm: bool)
    | LogoutClicked(prompt: bool, confirm: bool)
    | TimerElapsed

  /** The button that starts `op`. */
  function StartInput(op: Op, r: TokenResult): Input {
    if op == Login then SignIn(r) else SignUp(r)
  }

  function RemoveAt(ops: seq<Op>, k: nat): seq<Op>
    requires k < |ops|
  {
    ops[..k] + ops[k + 1..]
  }

  /** One input. A reply to a request that is not pending, or a timer firing
      when none is scheduled, cannot happen and changes nothing. */
  function Step(s: State, e: Input): Transition {
    match e
    case SignIn(r) => Start(s, Login, r)
    case SignUp(r) => Start(s, Register, r)
    case Reply(k, o, c) =>
      if k < |s.pending| then HandleReply(s.(pending := RemoveAt(s.pending, k)), s.pending[k], o, c)
      else Transition(s, [])
    case LogoutClicked(p, c) => Logout(s, p, c)
    case TimerElapsed => FireTimer(s)
  }

  /** Runs a script through `step`, input by input; the effects are those of
      the steps, in order. */
  function Fold(step: (State, Input) -> Transition, s: State, es: seq<Input>): Transition
    decreases |es|
  {
    if |es| == 0 then Transition(s, [])
    else
      var t := step(s, es[0]);
      var rest := Fold(step, t.state, es[1..]);
      Transition(rest.state, t.effects + rest.effects)
  }

  /** The component driven by a script. */
  function Run(s: State, es: seq<Input>): Transition {
    Fold(Step, s, es)
  }

  lemma {:induction false} FoldAppend(step: (State, Input) -> Transition, s: State, a: seq<Input>, b: seq<Input>)
    ensures Fold(step, s, a + b).state == Fold(step, Fold(step, s, a).state, b).state
    ensures Fold(step, s, a + b).effects == Fold(step, s, a).effects + Fold(step, Fold(step, s, a).state, b).effects
    decreases |a|
  {
    if |a| == 0 {
      assert a + b == b;
    } else {
      assert (a + b)[0] == a[0];
      assert (a + b)[1..] == a[1..] + b;
      FoldAppend(step, step(s, a[0]).state, a[1..], b);
    }
  }

  lemma FoldCons(step: (State, Input) -> Transition, s: State, e: Input, es: seq<Input>)
    ensures Fold(step, s, [e] + es).state == Fold(step, step(s, e).state, es).state
    ensures Fold(step, s, [e] + es).effects == step(s, e).effects + Fold(step, step(s, e).state, es).effects
  {
    assert ([e] + es)[0] == e;
    assert ([e] + es)[1..] == es;
  }

  /** Running a script is running its first input, then the rest. */
  lemma RunCons(s: State, e: Input, es: seq<Input>)
    ensures Run(s, [e] + es).state == Run(Step(s, e).state, es).state
    ensures Run(s, [e] + es).effects == Step(s, e).effects + Run(Step(s, e).state, es).effects
  {
    FoldCons(Step, s, e, es);
  }

  /** Running two scripts one after the other is running their concatenation. */
  lemma RunAppend(s: State, a: seq<Input>, b: seq<Input>)
    ensures Run(s, a + b).state == Run(Run(s, a).state, b).state
    ensures Run(s, a + b).effects == Run(s, a).effects + Run(Run(s, a).state, b).effects
  {
    FoldAppend(Step, s, a, b);
  }

  lemma RunOne(s: State, e: Input)
    ensures Run(s, [e]) == Step(s, e)
  {
    RunCons(s, e, []);
    assert [e] + [] == [e];
    assert Step(s, e).effects + [] == Step(s, e).effects;
  }

  // ---------------------------------------------------------------------
  // Counting effects

  predicate IsCall(e: Effect) { e.BackendCall? }
  predicate IsTimerScheduled(e: Effect) { e.ClearTimerScheduled? }
  predicate IsCleared(e: Effect) { e.ErrorCleared? }
  predicate IsSignOut(e: Effect) { e.SignOut? }
  predicate IsConfirm(e: Effect) { e.Confirm? }
  /** A mismatch question the user answered with yes. */
  predicate IsRetryAccepted(e: Effect) { e.Confirm? && e.prompt != ConfirmLogout && e.answer }

  /** The effects of `es` that satisfy `p`, in their order. */
  function Filter(es: seq<Effect>, p: Effect -> bool): (r: seq<Effect>)
    ensures |r| <= |es|
    ensures forall i :: 0 <= i < |r| ==> p(r[i])
  {
    if |es| == 0 then []
    else (if p(es[0]) then [es[0]] else []) + Filter(es[1..], p)
  }

  lemma {:induction false} FilterAppend(a: seq<Effect>, b: seq<Effect>, p: Effect -> bool)
    ensures Filter(a + b, p) == Filter(a, p) + Filter(b, p)
  {
    if |a| > 0 {
      assert (a + b)[0] == a[0];
      assert (a + b)[1..] == a[1..] + b;
      FilterAppend(a[1..], b, p);
    } else {
      assert a + b == b;
    }
  }

  function Count(es: seq<Effect>, p: Effect -> bool): nat {
    |Filter(es, p)|
  }

  lemma CountAppend(a: seq<Effect>, b: seq<Effect>, p: Effect -> bool)
    ensures Count(a + b, p) == Count(a, p) + Count(b, p)
  {
    FilterAppend(a, b, p);
  }

  /** 1 when the `i`-th effect exists and satisfies `p`. */
  function Hit(es: seq<Effect>, i: nat, p: Effect -> bool): nat {
    if i < |es| && p(es[i]) then 1 else 0
  }

  lemma CountCons(e: Effect, es: seq<Effect>, p: Effect -> bool)
    ensures Count([e] + es, p) == (if p(e) then 1 else 0) + Count(es, p)
  {
    assert ([e] + es)[0] == e;
    assert ([e] + es)[1..] == es;
  }

  /** Counting in a list of at most three effects, written out. */
  lemma CountShort(es: seq<Effect>, p: Effect -> bool)
    requires |es| <= 3
    ensures Count(es, p) == Hit(es, 0, p) + Hit(es, 1, p) + Hit(es, 2, p)
  {
    if |es| > 0 {
      assert es == [es[0]] + es[1..];
      CountCons(es[0], es[1..], p);
      if |es| > 1 {
        assert es[1..] == [es[1]] + es[2..];
        CountCons(es[1], es[2..], p);
        if |es| > 2 {
          assert es[2..] == [es[2]] + [];
          CountCons(es[2], [], p);
        }
      }
    }
  }

  // ---------------------------------------------------------------------
  // Invariants over every script

  /** Whenever the page shows a logged-in session, a user record is held. */
  predicate UserInvariant(s: State) {
    s.isLoggedIn ==> s.user.Some?
  }

  lemma {:induction false} RunKeepsUserInvariant(s: State, es: seq<Input>)
    requires UserInvariant(s)
    ensures UserInvariant(Run(s, es).state)
    decreases |es|
  {
    if |es| > 0 {
      assert es == [es[0]] + es[1..];
      RunCons(s, es[0], es[1..]);
      RunKeepsUserInvariant(Step(s, es[0]).state, es[1..]);
    }
  }

  /** What one reply emits, counted: every failure schedules exactly one
      clear timer, a request is issued only for an accepted mismatch, and a
      sign-out only for a declined one. */
  lemma HandleReplyCounts(s: State, op: Op, o: Outcome, confirm: bool)
    ensures var t := HandleReply(s, op, o, confirm);
      && Count(t.effects, IsTimerScheduled) == (if o.Err? then 1 else 0)
      && Count(t.effects, IsCleared) == 0
      && Count(t.effects, IsCall) == Count(t.effects, IsRetryAccepted)
      && Count(t.effects, IsCall) == (if o.Err? && o.errorCode == Some(AccountMismatch) && confirm then 1 else 0)
      && Count(t.effects, IsSignOut) == (if o.Err? && o.errorCode == Some(AccountMismatch) && !confirm then 1 else 0)
  {
    var es := HandleReply(s, op, o, confirm).effects;
    if o.Ok? {
      assert es == [];
    } else if o.errorCode == Some(AccountMismatch) {
      var prompt := MismatchPrompt(op);
      if confirm {
        assert es == [Confirm(prompt, true), BackendCall(Complement(op), s.idToken), ClearTimerScheduled(ClearDelayMs)];
      } else {
        assert es == [Confirm(prompt, false), SignOut(true), ClearTimerScheduled(ClearDelayMs)];
      }
      CountAll(es);
    } else {
      assert es == [ClearTimerScheduled(ClearDelayMs)];
      CountAll(es);
    }
  }

  /** The five counts of a list of at most three effects, written out. */
  lemma CountAll(es: seq<Effect>)
    requires |es| <= 3
    ensures Count(es, IsTimerScheduled) == Hit(es, 0, IsTimerScheduled) + Hit(es, 1, IsTimerScheduled) + Hit(es, 2, IsTimerScheduled)
    ensures Count(es, IsCleared) == Hit(es, 0, IsCleared) + Hit(es, 1, IsCleared) + Hit(es, 2, IsCleared)
    ensures Count(es, IsCall) == Hit(es, 0, IsCall) + Hit(es, 1, IsCall) + Hit(es, 2, IsCall)
    ensures Count(es, IsRetryAccepted) == Hit(es, 0, IsRetryAccepted) + Hit(es, 1, IsRetryAccepted) + Hit(es, 2, IsRetryAccepted)
    ensures Count(es, IsSignOut) == Hit(es, 0, IsSignOut) + Hit(es, 1, IsSignOut) + Hit(es, 2, IsSignOut)
  {
    CountShort(es, IsTimerScheduled);
    CountShort(es, IsCleared);
    CountShort(es, IsCall);
    CountShort(es, IsRetryAccepted);
    CountShort(es, IsSignOut);
  }

  lemma LogoutCounts(s: State, prompt: bool, confirm: bool)
    ensures var t := Logout(s, prompt, confirm);
      && Count(t.effects, IsTimerScheduled) == 0
      && Count(t.effects, IsCleared) == 0
      && Count(t.effects, IsCall) == 0
      && Count(t.effects, IsRetryAccepted) == 0
      && Count(t.effects, IsSignOut) == (if prompt && !confirm then 0 else 1)
  {
    var t := Logout(s, prompt, confirm);
    CountShort(t.effects, IsTimerScheduled);
    CountShort(t.effects, IsCleared);
    CountShort(t.effects, IsCall);
    CountShort(t.effects, IsRetryAccepted);
    CountShort(t.effects, IsSignOut);
  }

  lemma StartCounts(s: State, op: Op, r: TokenResult)
    ensures var t := Start(s, op, r);
      && Count(t.effects, IsTimerScheduled) == 0
      && Count(t.effects, IsCleared) == 0
      && Count(t.effects, IsCall) == (if r.CeremonyRejected? then 0 else 1)
      && Count(t.effects, IsRetryAccepted) == 0
  {
    var t := Start(s, op, r);
    CountShort(t.effects, IsTimerScheduled);
    CountShort(t.effects, IsCleared);
    CountShort(t.effects, IsCall);
    CountShort(t.effects, IsRetryAccepted);
  }

  lemma FireTimerCounts(s: State)
    ensures var t := FireTimer(s);
      && Count(t.effects, IsTimerScheduled) == 0
      && Count(t.effects, IsCleared) == (if s.timers > 0 then 1 else 0)
      && Count(t.effects, IsCall) == 0
      && Count(t.effects, IsRetryAccepted) == 0
  {
    var t := FireTimer(s);
    CountShort(t.effects, IsTimerScheduled);
    CountShort(t.effects, IsCleared);
    CountShort(t.effects, IsCall);
    CountShort(t.effects, IsRetryAccepted);
  }

  /** What one input emits, counted, reduced to the handler it runs. */
  lemma StepCounts(s: State, e: Input)
    ensures var t := Step(s, e);
      && t.state.timers + Count(t.effects, IsCleared) == s.timers + Count(t.effects, IsTimerScheduled)
      && Count(t.effects, IsCall) == Issues(e) + Count(t.effects, IsRetryAccepted)
  {
    match e
    case SignIn(r) => StartCounts(s, Login, r);
    case SignUp(r) => StartCounts(s, Register, r);
    case Reply(k, o, c) =>
      if k < |s.pending| {
        HandleReplyCounts(s.(pending := RemoveAt(s.pending, k)), s.pending[k], o, c);
      } else {
        assert Step(s, e).effects == [];
      }
    case LogoutClicked(p, c) => LogoutCounts(s, p, c);
    case TimerElapsed => FireTimerCounts(s);
  }

  /** Every clear timer the component schedules is either still pending or
      has fired: no timer is lost and none fires twice. */
  lemma {:induction false} RunTimerAccounting(s: State, es: seq<Input>)
    ensures var t := Run(s, es);
      t.state.timers + Count(t.effects, IsCleared) == s.timers + Count(t.effects, IsTimerScheduled)
    decreases |es|
  {
    if |es| > 0 {
      assert es == [es[0]] + es[1..];
      RunCons(s, es[0], es[1..]);
      var first := Step(s, es[0]);
      var rest := Run(first.state, es[1..]);
      StepCounts(s, es[0]);
      RunTimerAccounting(first.state, es[1..]);
      CountAppend(first.effects, rest.effects, IsCleared);
      CountAppend(first.effects, rest.effects, IsTimerScheduled);
    }
  }

  /** 1 for a button press whose ceremony lets the handler go on. */
  function Issues(e: Input): nat {
    if (e.SignIn? || e.SignUp?) && !e.token.CeremonyRejected? then 1 else 0
  }

  function Starts(es: seq<Input>): nat {
    if |es| == 0 then 0 else Issues(es[0]) + Starts(es[1..])
  }

  /** Every backend request comes from a button press or from a mismatch
      the user agreed to resolve; there is no other source of requests. */
  lemma {:induction false} RunCallAccounting(s: State, es: seq<Input>)
    ensures var t := Run(s, es);
      Count(t.effects, IsCall) == Starts(es) + Count(t.effects, IsRetryAccepted)
    decreases |es|
  {
    if |es| > 0 {
      assert es == [es[0]] + es[1..];
      RunCons(s, es[0], es[1..]);
      var first := Step(s, es[0]);
      var rest := Run(first.state, es[1..]);
      StepCounts(s, es[0]);
      RunCallAccounting(first.state, es[1..]);
      CountAppend(first.effects, rest.effects, IsCall);
      CountAppend(first.effects, rest.effects, IsRetryAccepted);
    }
  }

  /** Within one sign-in or sign-up attempt, the backend is called at most
      once more than the user confirmed a mismatch. */
  lemma AttemptCallBound(s: State, es: seq<Input>)
    requires Starts(es) <= 1
    ensures var t := Run(s, es);
      Count(t.effects, IsCall) <= Count(t.effects, IsRetryAccepted) + 1
  {
    RunCallAccounting(s, es);
  }

  /** The token changes only when a ceremony issues a new one, or when a
      logout blanks it, and a logout always signs out of Google. */
  lemma StepTokenChanges(s: State, e: Input)
    ensures var t := Step(s, e);
      t.state.idToken != s.idToken ==>
        || ((e.SignIn? || e.SignUp?) && e.token.Issued? && t.state.idToken == e.token.token)
        || (t.state.idToken == "" && SignOut(true) in t.effects)
  {
  }

  // ---------------------------------------------------------------------
  // The mismatch chain

  /** `n` replies, each answering the oldest pending request with a mismatch
      the user agrees to resolve. */
  function MismatchReplies(n: nat, message: string): seq<Input> {
    seq(n, _ => Reply(0, Err(Some(AccountMismatch), message), true))
  }

  /** The operation requested `k` steps into a chain that began with `op`. */
  function OpAfter(op: Op, k: nat): Op {
    if k % 2 == 0 then op else Complement(op)
  }

  lemma OpAfterShift(op: Op, k: nat)
    ensures OpAfter(Complement(op), k) == OpAfter(op, k + 1)
  {
    if k % 2 == 0 {
      assert (k + 1) % 2 == 1;
    } else {
      assert (k + 1) % 2 == 0;
    }
  }

  /** One confirmed mismatch reply to the only pending request. */
  lemma MismatchStep(s: State, op: Op, message: string)
    requires s.pending == [op]
    ensures var t := Step(s, Reply(0, Err(Some(AccountMismatch), message), true));
      && t.state == s.(pending := [Complement(op)], timers := s.timers + 1)
      && Filter(t.effects, IsCall) == [BackendCall(Complement(op), s.idToken)]
  {
    var t := Step(s, Reply(0, Err(Some(AccountMismatch), message), true));
    assert RemoveAt(s.pending, 0) == [];
    var call := BackendCall(Complement(op), s.idToken);
    assert t.effects == [Confirm(MismatchPrompt(op), true)] + ([call] + [ClearTimerScheduled(ClearDelayMs)]);
    FilterAppend([Confirm(MismatchPrompt(op), true)], [call] + [ClearTimerScheduled(ClearDelayMs)], IsCall);
    FilterAppend([call], [ClearTimerScheduled(ClearDelayMs)], IsCall);
  }

  /** A script that opens with a confirmed mismatch reply: the rest of the
      script runs from the state with the other operation pending. */
  lemma MismatchThenRest(s: State, op: Op, message: string, later: seq<Input>)
    requires s.pending == [op]
    ensures var whole := Run(s, [Reply(0, Err(Some(AccountMismatch), message), true)] + later);
      var rest := Run(s.(pending := [Complement(op)], timers := s.timers + 1), later);
      && whole.state == rest.state
      && Filter(whole.effects, IsCall) == [BackendCall(Complement(op), s.idToken)] + Filter(rest.effects, IsCall)
  {
    var e := Reply(0, Err(Some(AccountMismatch), message), true);
    var first := Step(s, e);
    MismatchStep(s, op, message);
    RunCons(s, e, later);
    FilterAppend(first.effects, Run(first.state, later).effects, IsCall);
  }

  /** Prepending the first retry to the calls of a chain that began one step
      later keeps the alternation. */
  lemma ConsAlternates(op: Op, token: string, tail: seq<Effect>)
    requires forall i :: 0 <= i < |tail| ==> tail[i] == BackendCall(OpAfter(Complement(op), i + 1), token)
    ensures var calls := [BackendCall(Complement(op), token)] + tail;
      forall i :: 0 <= i < |calls| ==> calls[i] == BackendCall(OpAfter(op, i + 1), token)
  {
    var calls := [BackendCall(Complement(op), token)] + tail;
    forall i | 0 <= i < |calls|
      ensures calls[i] == BackendCall(OpAfter(op, i + 1), token)
    {
      if i > 0 {
        assert calls[i] == tail[i - 1];
        OpAfterShift(op, i);
      } else {
        assert OpAfter(op, 1) == Complement(op);
      }
    }
  }

  /** Confirmed mismatches alternate login and register without bound, each
      retry carrying the token of the first request; nothing else changes
      but the pending request and the timer count. */
  lemma {:induction false} MismatchChainAlternates(s: State, op: Op, n: nat, message: string)
    requires s.pending == [op]
    ensures Run(s, MismatchReplies(n, message)).state
      == s.(pending := [OpAfter(op, n)], timers := s.timers + n)
    ensures var calls := Filter(Run(s, MismatchReplies(n, message)).effects, IsCall);
      |calls| == n &&
      forall i :: 0 <= i < n ==> calls[i] == BackendCall(OpAfter(op, i + 1), s.idToken)
    decreases n
  {
    var script := MismatchReplies(n, message);
    if n > 0 {
      var later := MismatchReplies(n - 1, message);
      assert script == [Reply(0, Err(Some(AccountMismatch), message), true)] + later;
      var s' := s.(pending := [Complement(op)], timers := s.timers + 1);
      MismatchThenRest(s, op, message, later);
      MismatchChainAlternates(s', Complement(op), n - 1, message);
      OpAfterShift(op, n - 1);
      var tail := Filter(Run(s', later).effects, IsCall);
      ConsAlternates(op, s.idToken, tail);
    } else {
      assert script == [];
    }
  }

  /** A whole attempt: after the button press, `n` confirmed mismatches
      produce `n + 1` requests in alternation, all with the token of the one
      ceremony. */
  lemma AttemptAlternates(s: State, op: Op, token: string, n: nat, message: string)
    requires s.pending == []
    ensures var calls := Filter(Run(s, [StartInput(op, Issued(token))] + MismatchReplies(n, message)).effects, IsCall);
      |calls| == n + 1 &&
      forall i :: 0 <= i <= n ==> calls[i] == BackendCall(OpAfter(op, i), token)
  {
    var e := StartInput(op, Issued(token));
    var first := Step(s, e);
    assert first.state == s.(idToken := token, pending := [op]);
    assert first.effects == [BackendCall(op, token)] + [];
    RunCons(s, e, MismatchReplies(n, message));
    MismatchChainAlternates(first.state, op, n, message);
    var rest := Run(first.state, MismatchReplies(n, message));
    FilterAppend(first.effects, rest.effects, IsCall);
    FilterAppend([BackendCall(op, token)], [], IsCall);
    var calls := Filter(Run(s, [e] + MismatchReplies(n, message)).effects, IsCall);
    var tail := Filter(rest.effects, IsCall);
    assert calls == [BackendCall(op, token)] + tail;
    forall i | 0 <= i <= n
      ensures calls[i] == BackendCall(OpAfter(op, i), token)
    {
      if i > 0 {
        assert calls[i] == tail[i - 1];
      }
    }
  }

  /** One declined mismatch reply to the only pending request. */
  lemma DeclineStep(s: State, op: Op, message: string)
    requires s.pending == [op]
    ensures var t := Step(s, Reply(0, Err(Some(AccountMismatch), message), false));
      && t.state == s.(isLoggedIn := false, idToken := "", pending := [], timers := s.timers + 1)
      && Count(t.effects, IsSignOut) == 1
      && Count(t.effects, IsConfirm) == 1
      && Count(t.effects, IsCall) == 0
  {
    var t := Step(s, Reply(0, Err(Some(AccountMismatch), message), false));
    assert RemoveAt(s.pending, 0) == [];
    CountShort(t.effects, IsSignOut);
    CountShort(t.effects, IsConfirm);
    CountShort(t.effects, IsCall);
  }

  /** A declined mismatch logs out without asking a second question: one
      dialog, one Google sign-out, no session, no token; the user record and
      the message stay as they were. */
  lemma DeclinedMismatchLogsOut(s: State, op: Op, token: string, message: string)
    requires s.pending == []
    ensures var t := Run(s, [StartInput(op, Issued(token)), Reply(0, Err(Some(AccountMismatch), message), false)]);
      && !t.state.isLoggedIn
      && t.state.idToken == ""
      && t.state.user == s.user
      && t.state.errorMsg == s.errorMsg
      && Count(t.effects, IsSignOut) == 1
      && Count(t.effects, IsConfirm) == 1
      && Count(t.effects, IsCall) == 1
  {
    var e0 := StartInput(op, Issued(token));
    var e1 := Reply(0, Err(Some(AccountMismatch), message), false);
    var t0 := Step(s, e0);
    assert t0.state == s.(idToken := token, pending := [op]);
    assert t0.effects == [BackendCall(op, token)];
    DeclineStep(t0.state, op, message);
    var t1 := Step(t0.state, e1);
    assert [e0, e1] == [e0] + [e1];
    RunCons(s, e0, [e1]);
    RunOne(t0.state, e1);
    CountShort(t0.effects, IsSignOut);
    CountShort(t0.effects, IsConfirm);
    CountShort(t0.effects, IsCall);
    CountAppend(t0.effects, t1.effects, IsSignOut);
    CountAppend(t0.effects, t1.effects, IsConfirm);
    CountAppend(t0.effects, t1.effects, IsCall);
  }

  /** A mismatch the user resolves, followed by a success of the other
      operation: logged in with the returned user and the one token, after
      exactly one request of each operation, both carrying that token. */
  lemma MismatchResolvedBySuccess(s: State, op: Op, token: string, message: string, u: User, c: bool)
    requires s.pending == []
    ensures var t := Run(s, [StartInput(op, Issued(token)), Reply(0, Err(Some(AccountMismatch), message), true),
                             Reply(0, Ok(u), c)]);
      && t.state == s.(user := Some(u), isLoggedIn := true, idToken := token, timers := s.timers + 1)
      && Filter(t.effects, IsCall) == [BackendCall(op, token), BackendCall(Complement(op), token)]
  {
    var e0, e1, e2 := StartInput(op, Issued(token)), Reply(0, Err(Some(AccountMismatch), message), true), Reply(0, Ok(u), c);
    var s1 := Step(s, e0).state;
    assert s1 == s.(idToken := token, pending := [op]);
    assert Step(s, e0).effects == [BackendCall(op, token)];
    var s2 := s1.(pending := [Complement(op)], timers := s1.timers + 1);
    MismatchThenRest(s1, op, message, [e2]);
    SuccessStep(s2, Complement(op), u, c);
    RunOne(s2, e2);
    assert [e0, e1, e2] == [e0] + ([e1] + [e2]);
    RunCons(s, e0, [e1] + [e2]);
    FilterAppend(Step(s, e0).effects, Run(s1, [e1] + [e2]).effects, IsCall);
    FilterAppend([BackendCall(op, token)], [], IsCall);
  }

  /** One successful reply to the only pending request. */
  lemma SuccessStep(s: State, op: Op, u: User, c: bool)
    requires s.pending == [op]
    ensures var t := Step(s, Reply(0, Ok(u), c));
      t.state == s.(user := Some(u), isLoggedIn := true, pending := []) && Filter(t.effects, IsCall) == []
  {
    assert RemoveAt(s.pending, 0) == [];
  }

  /** The answer to the mismatch dialog matters only for a mismatch. */
  lemma ConfirmIgnoredUnlessMismatch(s: State, op: Op, o: Outcome)
    requires !(o.Err? && o.errorCode == Some(AccountMismatch))
    ensures HandleReply(s, op, o, true) == HandleReply(s, op, o, false)
  {
  }

  // ---------------------------------------------------------------------
  // The clear timer

  /** A sign-in whose reply carries an error code other than the mismatch
      code: the new token is kept, the message shows the code, one clear timer
      is pending more, and nothing else changes. */
  lemma CodedFailureAttempt(s: State, token: string, code: int, message: string)
    requires s.pending == []
    requires code != AccountMismatch
    ensures Run(s, [SignIn(Issued(token)), Reply(0, Err(Some(code), message), false)]).state
      == s.(idToken := token, errorMsg := ErrorText(code, message), timers := s.timers + 1)
  {
    var e0, e1 := SignIn(Issued(token)), Reply(0, Err(Some(code), message), false);
    var s1 := Step(s, e0).state;
    assert s1 == s.(idToken := token, pending := [Login]);
    assert RemoveAt(s1.pending, 0) == [];
    assert [e0, e1] == [e0] + [e1];
    RunCons(s, e0, [e1]);
    RunOne(s1, e1);
  }

  /** A timer scheduled for an older error still blanks a newer message: after
      two failed attempts in a row, the first timer to fire leaves no message
      although one timer is still pending. */
  lemma StaleTimerBlanksNewerMessage(s: State, token: string, c1: int, m1: string, c2: int, m2: string)
    requires s.pending == [] && s.timers == 0
    requires c1 != AccountMismatch && c2 != AccountMismatch
    ensures var before := Run(s, [SignIn(Issued(token)), Reply(0, Err(Some(c1), m1), false),
                                  SignIn(Issued(token)), Reply(0, Err(Some(c2), m2), false)]).state;
      && before.errorMsg == ErrorText(c2, m2)
      && before.timers == 2
      && Step(before, TimerElapsed).state.errorMsg == ""
      && Step(before, TimerElapsed).state.timers == 1
  {
    var a := [SignIn(Issued(token)), Reply(0, Err(Some(c1), m1), false)];
    var b := [SignIn(Issued(token)), Reply(0, Err(Some(c2), m2), false)];
    assert a + b == [SignIn(Issued(token)), Reply(0, Err(Some(c1), m1), false),
                     SignIn(Issued(token)), Reply(0, Err(Some(c2), m2), false)];
    RunAppend(s, a, b);
    CodedFailureAttempt(s, token, c1, m1);
    CodedFailureAttempt(Run(s, a).state, token, c2, m2);
  }
}
