/**
  The code-entry loop of create_new_session (backup.py:109-157). Every answer
  of the chat client is an input fixed in advance: whether connecting works,
  whether the first code request works, and, for each of the three possible
  attempts, what sign_in(phone, code) does. The phone number, the codes and
  the password the operator types carry no logic here and are left out.
*/
module Auth {

  /** How the loop reads the text of an exception raised by sign_in (backup.py:137-145). */
  datatype ErrorKind = CodeInvalid | CodeExpired | OtherError

  /** What one sign_in(phone, code) call does. */
  datatype SignInOutcome =
    | SignedIn
      /** SessionPasswordNeededError; `passwordAccepted` is whether the following sign_in(password=...) returns rather than raises. */
    | PasswordNeeded(passwordAccepted: bool)
      /** Any other exception, with its text; `resendSucceeds` is whether a send_code_request made because of it returns rather than raises. */
    | Rejected(message: string, resendSucceeds: bool)

  /** The result of create_new_session and how many client calls of each kind it made. */
  datatype AuthRun = AuthRun(ok: bool, codeSignIns: nat, passwordSignIns: nat, codeRequests: nat)

  /** Python's `pattern in text` on strings. */
  predicate Contains(text: string, pattern: string)
    decreases |text|
  {
    if |text| < |pattern| then false
    else text[..|pattern|] == pattern || Contains(text[1..], pattern)
  }

  /** The checks at backup.py:138-145, in their order: an "invalid" text wins over an "expired" one. */
  function Classify(message: string): (k: ErrorKind)
    ensures k == CodeInvalid <==> Contains(message, "PHONE_CODE_INVALID")
    ensures k == CodeExpired <==> !Contains(message, "PHONE_CODE_INVALID") && Contains(message, "PHONE_CODE_EXPIRED")
  {
    if Contains(message, "PHONE_CODE_INVALID") then CodeInvalid
    else if Contains(message, "PHONE_CODE_EXPIRED") then CodeExpired
    else OtherError
  }

  /** An outcome after which the loop goes on to another attempt, if one is left. */
  predicate Retryable(o: SignInOutcome)
  {
    o.Rejected? && (Classify(o.message) == CodeExpired ==> o.resendSucceeds)
  }

  /** An outcome that makes create_new_session return True. */
  predicate Accepted(o: SignInOutcome)
  {
    o.SignedIn? || (o.PasswordNeeded? && o.passwordAccepted)
  }

  /** 1 when an outcome makes the loop request a new code, else 0. */
  function Resends(o: SignInOutcome): nat
  {
    if o.Rejected? && Classify(o.message) == CodeExpired then 1 else 0
  }

  /** The code requests made because of the outcomes in `os`. */
  function TotalResends(os: seq<SignInOutcome>): nat
  {
    if os == [] then 0 else TotalResends(os[..|os| - 1]) + Resends(os[|os| - 1])
  }

  /**
    The attempts from `attempt` on (the body of `for attempt in range(3)`).
    A failure on the last attempt returns False at once (backup.py:147-151), so the
    `attempt == 3` case, the fall-through `return False`, is never reached from 0.
  */
  function Attempts(outcomes: seq<SignInOutcome>, attempt: nat): (r: AuthRun)
    requires attempt <= 3 <= |outcomes|
    decreases 3 - attempt
    ensures r.codeSignIns <= 3 - attempt
    ensures r.passwordSignIns <= 1
    ensures attempt < 3 ==> 1 <= r.codeSignIns
    ensures r.codeRequests <= r.codeSignIns
  {
    if attempt == 3 then AuthRun(false, 0, 0, 0)
    else match outcomes[attempt]
      case SignedIn => AuthRun(true, 1, 0, 0)
      case PasswordNeeded(accepted) => AuthRun(accepted, 1, 1, 0)
      case Rejected(message, resendSucceeds) =>
        var resent := Resends(outcomes[attempt]);
        if resent == 1 && !resendSucceeds then AuthRun(false, 1, 0, 1)
        else if attempt < 2 then
          var rest := Attempts(outcomes, attempt + 1);
          AuthRun(rest.ok, rest.codeSignIns + 1, rest.passwordSignIns, rest.codeRequests + resent)
        else AuthRun(false, 1, 0, resent)
  }

  /** create_new_session as a function of the client's answers. */
  function NewSessionRun(connectOk: bool, firstRequestOk: bool, outcomes: seq<SignInOutcome>): (r: AuthRun)
    requires 3 <= |outcomes|
    ensures r.ok ==> connectOk && firstRequestOk
    ensures !connectOk ==> r == AuthRun(false, 0, 0, 0)
    ensures connectOk && !firstRequestOk ==> r == AuthRun(false, 0, 0, 1)
    ensures connectOk && firstRequestOk ==> 1 <= r.codeSignIns <= 3 && 1 <= r.codeRequests <= 1 + r.codeSignIns
    ensures r.passwordSignIns <= 1
  {
    if !connectOk then AuthRun(false, 0, 0, 0)
    else if !firstRequestOk then AuthRun(false, 0, 0, 1)
    else
      var r := Attempts(outcomes, 0);
      r.(codeRequests := r.codeRequests + 1)
  }

  /**
    create_new_session. `outcomes[i]` is what the i-th sign_in(phone, code)
    would do; outcomes the loop does not reach are ignored.
  */
  method CreateNewSession(connectOk: bool, firstRequestOk: bool, outcomes: seq<SignInOutcome>)
    returns (ok: bool, codeSignIns: nat, passwordSignIns: nat, codeRequests: nat)
    requires 3 <= |outcomes|
    ensures AuthRun(ok, codeSignIns, passwordSignIns, codeRequests) == NewSessionRun(connectOk, firstRequestOk, outcomes)
    ensures codeSignIns <= 3 && passwordSignIns <= 1
    ensures passwordSignIns == 1 ==> outcomes[codeSignIns - 1].PasswordNeeded?
  {
    ok, codeSignIns, passwordSignIns, codeRequests := false, 0, 0, 0;
    if !connectOk {
      return;
    }
    codeRequests := 1;
    if !firstRequestOk {
      return;
    }
    for attempt := 0 to 3
      invariant codeSignIns == attempt && passwordSignIns == 0
      invariant forall k :: 0 <= k < attempt ==> Retryable(outcomes[k])
      invariant codeRequests == 1 + TotalResends(outcomes[..attempt])
      invariant attempt < 3 ==>
        var rest := Attempts(outcomes, attempt);
        NewSessionRun(connectOk, firstRequestOk, outcomes)
          == AuthRun(rest.ok, rest.codeSignIns + codeSignIns, rest.passwordSignIns, rest.codeRequests + codeRequests)
    {
      assert outcomes[..attempt + 1][..attempt] == outcomes[..attempt];
      codeSignIns := codeSignIns + 1;
      match outcomes[attempt]
      case SignedIn =>
        ok := true;
        return;
      case PasswordNeeded(accepted) =>
        passwordSignIns := 1;
        ok := accepted;
        return;
      case Rejected(message, resendSucceeds) =>
        var kind := Classify(message);
        if kind == CodeExpired {
          codeRequests := codeRequests + 1;
          if !resendSucceeds {
            ok := false;
            return;
          }
        }
        if 2 <= attempt {
          ok := false;
          return;
        }
    }
    ok := false;
  }

  /** After `k` retryable outcomes, the attempts from `attempt` behave as the attempts from `attempt + k`, shifted. */
  lemma {:induction false} AttemptsAfterRetries(outcomes: seq<SignInOutcome>, attempt: nat, k: nat)
    requires attempt + k < 3 <= |outcomes|
    requires forall j :: attempt <= j < attempt + k ==> Retryable(outcomes[j])
    ensures var r := Attempts(outcomes, attempt);
            var s := Attempts(outcomes, attempt + k);
            r.ok == s.ok && r.codeSignIns == s.codeSignIns + k && r.passwordSignIns == s.passwordSignIns
            && r.codeRequests == s.codeRequests + TotalResends(outcomes[attempt..attempt + k])
  {
    if k > 0 {
      AttemptsAfterRetries(outcomes, attempt, k - 1);
      var last := attempt + k - 1;
      assert outcomes[attempt..attempt + k][..k - 1] == outcomes[attempt..last];
      assert Retryable(outcomes[last]);
    }
  }

  /** The loop returns True at the first accepted outcome, once every earlier one was retryable. */
  lemma FirstAcceptedWins(connectOk: bool, firstRequestOk: bool, outcomes: seq<SignInOutcome>, k: nat)
    requires connectOk && firstRequestOk
    requires k < 3 <= |outcomes|
    requires forall j :: 0 <= j < k ==> Retryable(outcomes[j])
    requires outcomes[k].SignedIn?
    ensures NewSessionRun(connectOk, firstRequestOk, outcomes)
            == AuthRun(true, k + 1, 0, 1 + TotalResends(outcomes[..k]))
  {
    AttemptsAfterRetries(outcomes, 0, k);
  }

  /** A request for the second factor ends the loop after exactly one password sign-in; the run succeeds when the password is accepted. */
  lemma TwoFactorEndsLoop(connectOk: bool, firstRequestOk: bool, outcomes: seq<SignInOutcome>, k: nat)
    requires connectOk && firstRequestOk
    requires k < 3 <= |outcomes|
    requires forall j :: 0 <= j < k ==> Retryable(outcomes[j])
    requires outcomes[k].PasswordNeeded?
    ensures NewSessionRun(connectOk, firstRequestOk, outcomes)
            == AuthRun(outcomes[k].passwordAccepted, k + 1, 1, 1 + TotalResends(outcomes[..k]))
  {
    AttemptsAfterRetries(outcomes, 0, k);
  }

  /** Three retryable failures exhaust the budget: False, after exactly three code sign-ins and one code request per expired code. */
  lemma ThreeFailuresReturnFalse(connectOk: bool, firstRequestOk: bool, outcomes: seq<SignInOutcome>)
    requires connectOk && firstRequestOk && 3 <= |outcomes|
    requires forall j :: 0 <= j < 3 ==> Retryable(outcomes[j])
    ensures NewSessionRun(connectOk, firstRequestOk, outcomes)
            == AuthRun(false, 3, 0, 1 + TotalResends(outcomes[..3]))
  {
    AttemptsAfterRetries(outcomes, 0, 2);
    assert outcomes[0..2] == outcomes[..2];
    assert outcomes[..3][..2] == outcomes[..2];
  }

  /**
    An expired code whose resend raises ends create_new_session through its
    outer handler (backup.py:140-142, 155-157): False, after k + 1 code
    sign-ins, with the first request, the resends before it and the failed
    resend counted.
  */
  lemma ExpiredResendFailureEndsRun(outcomes: seq<SignInOutcome>, k: nat)
    requires k < 3 <= |outcomes|
    requires forall j :: 0 <= j < k ==> Retryable(outcomes[j])
    requires outcomes[k].Rejected? && Classify(outcomes[k].message) == CodeExpired && !outcomes[k].resendSucceeds
    ensures NewSessionRun(true, true, outcomes) == AuthRun(false, k + 1, 0, 2 + TotalResends(outcomes[..k]))
  {
    AttemptsAfterRetries(outcomes, 0, k);
  }

  /**
    Conversely, a run that returns True stopped at an accepted outcome, every
    outcome before it was retryable, and each expired code before it caused
    exactly one extra code request.
  */
  lemma {:induction false} SuccessMeansAccepted(outcomes: seq<SignInOutcome>, attempt: nat)
    requires attempt < 3 <= |outcomes|
    requires Attempts(outcomes, attempt).ok
    ensures var r := Attempts(outcomes, attempt);
            var last := attempt + r.codeSignIns - 1;
            last < 3 && Accepted(outcomes[last])
            && (forall j :: attempt <= j < last ==> Retryable(outcomes[j]))
            && r.codeRequests == TotalResends(outcomes[attempt..last])
            && (r.passwordSignIns == 1 <==> outcomes[last].PasswordNeeded?)
    decreases 3 - attempt
  {
    var r := Attempts(outcomes, attempt);
    if !Accepted(outcomes[attempt]) {
      assert Retryable(outcomes[attempt]);
      assert attempt < 2;
      SuccessMeansAccepted(outcomes, attempt + 1);
      var last := attempt + r.codeSignIns - 1;
      AttemptsAfterRetries(outcomes, attempt, 1);
      TotalResendsSplit(outcomes[attempt..last], 1);
      assert outcomes[attempt..last][..1] == [outcomes[attempt]];
      assert outcomes[attempt..last][1..] == outcomes[attempt + 1..last];
    }
  }

  /** Code requests add up over a split of the outcomes. */
  lemma {:induction false} TotalResendsSplit(os: seq<SignInOutcome>, k: nat)
    requires k <= |os|
    ensures TotalResends(os) == TotalResends(os[..k]) + TotalResends(os[k..])
    decreases |os|
  {
    if k < |os| {
      var n := |os| - 1;
      TotalResendsSplit(os[..n], k);
      assert os[..n][..k] == os[..k];
      assert os[..n][k..] == os[k..][..|os[k..]| - 1];
    } else {
      assert os[..k] == os && os[k..] == [];
    }
  }
}
