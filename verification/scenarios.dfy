/** Concrete scripts for the component from its initial state, with the values a
    reader would try by hand. */
module Scenarios {
  import opened Text
  import opened Session
  import opened Trace

  lemma Renders412()
    ensures IntToDecimal(412) == "412"
  {
    assert NatToDecimal(4) == "4";
    assert NatToDecimal(41) == NatToDecimal(4) + [DigitChar(1)];
    assert NatToDecimal(412) == NatToDecimal(41) + [DigitChar(2)];
  }

  lemma BannedText()
    ensures ErrorText(412, "banned") == "412: BANNED"
  {
    Renders412();
    assert ToUpper("banned") == "BANNED";
  }

  /** Login rejected with code 412 and message "banned": the page shows
      "412: BANNED" until the clear timer fires, then nothing. */
  lemma BannedShownThenCleared()
    ensures var shown := Run(Initial(), [SignIn(Issued("tok")), Reply(0, Err(Some(412), "banned"), false)]).state;
      && shown.errorMsg == "412: BANNED"
      && !shown.isLoggedIn
      && Step(shown, TimerElapsed).state.errorMsg == ""
  {
    CodedFailureAttempt(Initial(), "tok", 412, "banned");
    BannedText();
  }

  /** Sign-in, mismatch, yes, registration succeeds with u1/Alice: logged in
      as u1, after one login and one register request with the same token. */
  lemma SignInMismatchThenRegister()
    ensures var script := [SignIn(Issued("tok")), Reply(0, Err(Some(606), "not registered"), true),
                           Reply(0, Ok(User("u1", "Alice")), false)];
      && Run(Initial(), script).state.isLoggedIn
      && Run(Initial(), script).state.user == Some(User("u1", "Alice"))
      && Filter(Run(Initial(), script).effects, IsCall) == [BackendCall(Login, "tok"), BackendCall(Register, "tok")]
  {
    MismatchResolvedBySuccess(Initial(), Login, "tok", "not registered", User("u1", "Alice"), false);
  }

  /** Sign-up, mismatch, no: logged out with no token. */
  lemma SignUpMismatchDeclined()
    ensures var t := Run(Initial(), [SignUp(Issued("tok")), Reply(0, Err(Some(606), "registered"), false)]);
      !t.state.isLoggedIn && t.state.idToken == "" && Count(t.effects, IsSignOut) == 1
  {
    DeclinedMismatchLogsOut(Initial(), Register, "tok", "registered");
  }

  /** When reading the auth state fails, the request still goes out with the
      old, here empty, token, and a success logs the user in with no token
      held: being logged in does not imply holding a token. */
  lemma LoggedInWithoutToken(u: User)
    ensures var t := Run(Initial(), [SignIn(StateFailed), Reply(0, Ok(u), false)]);
      && t.state.isLoggedIn
      && t.state.idToken == ""
      && t.effects == [BackendCall(Login, "")]
  {
    var e0, e1 := SignIn(StateFailed), Reply(0, Ok(u), false);
    var s1 := Step(Initial(), e0).state;
    assert s1.pending == [Login];
    assert RemoveAt(s1.pending, 0) == [];
    assert [e0, e1] == [e0] + [e1];
    RunCons(Initial(), e0, [e1]);
    RunOne(s1, e1);
  }
}
