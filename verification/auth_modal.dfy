/**
 * The sign-in / sign-up dialog as a state machine. Each handler is a pure
 * transition that takes the identity provider's answer as an input and
 * reports which provider call it made and whether it scheduled the dialog to
 * close. Timers are discrete `Tick` events.
 */
module AuthModal {
  import opened Optional

  /** The six steps of the dialog (`MODE`). */
  datatype Mode = EnterEmail | VerifyCode | SetPassword | PasswordLogin | ForgotPassword | ResetPassword

  /** The dialog's component state. `otp` holds one string per code slot. */
  datatype AuthState = AuthState(
    mode: Mode,
    email: string,
    password: string,
    confirmPassword: string,
    otp: seq<string>,
    error: string,
    success: string,
    loading: bool,
    countdown: int,
    isRegister: bool)

  /** What the identity provider did with a call: succeeded, returned an error, or threw. */
  datatype Answer = Ok | Err(message: string) | Throw

  /** The identity-provider calls the dialog makes. */
  datatype Call =
    | SendOtpCall(email: string)
    | VerifyOtpCall(email: string, token: string)
    | SignInCall(email: string, password: string)
    | ResetPasswordCall(email: string)
    | UpdatePasswordCall(password: string)

  /** The state after a handler, the provider call it made (if any), and whether it scheduled `onClose`. */
  datatype Step = Step(state: AuthState, call: Option<Call>, closeScheduled: bool)

  const CodeLength: nat := 6
  const MinPasswordLength: nat := 6
  const ResendSeconds: int := 60

  /** The `initialMode` value that forces the reset-password step (`MODE.RESET_PASSWORD`). */
  const ResetPasswordMode: string := "reset_password"

  const EmptyOtp: seq<string> := ["", "", "", "", "", ""]

  const Initial: AuthState := AuthState(EnterEmail, "", "", "", EmptyOtp, "", "", false, 0, true)

  // Texts the dialog shows.
  const IncompleteCode: string := "请输入完整的6位验证码"
  const PasswordMismatch: string := "两次输入的密码不一致"
  const PasswordTooShort: string := "密码至少需要6个字符"
  const SendCodeFailed: string := "发送验证码失败，请重试"
  const VerifyFailed: string := "验证失败，请重试"
  const SetPasswordFailed: string := "设置密码失败，请重试"
  const LoginFailed: string := "登录失败，请重试"
  const ResetMailFailed: string := "发送失败，请重试"
  const ResetFailed: string := "重置失败，请重试"
  const VerifiedSetPassword: string := "验证成功！请设置你的密码"
  const LoggedIn: string := "登录成功！"
  const Registered: string := "注册成功！"
  const ResetMailSent: string := "重置密码邮件已发送！请查收邮箱。"
  const PasswordResetDone: string := "密码重置成功！"

  function CodeSentTo(email: string): string
  {
    "验证码已发送到 " + email + "，请查收邮件！"
  }

  // ---------------------------------------------------------------------
  // Well-formed states
  // ---------------------------------------------------------------------

  predicate IsDigit(c: char) { '0' <= c <= '9' }

  /** A code slot is empty or holds one digit. */
  predicate SlotOk(slot: string)
  {
    slot == "" || (|slot| == 1 && IsDigit(slot[0]))
  }

  /** Six well-formed code slots and a countdown between 0 and 60. */
  predicate Valid(s: AuthState)
  {
    && |s.otp| == CodeLength
    && (forall i :: 0 <= i < |s.otp| ==> SlotOk(s.otp[i]))
    && 0 <= s.countdown <= ResendSeconds
  }

  lemma InitialValid()
    ensures Valid(Initial)
  {
  }

  // ---------------------------------------------------------------------
  // Effects: closing, initial mode, countdown
  // ---------------------------------------------------------------------

  /**
   * The effect on `isOpen` turning false: back to the first step with every
   * form field cleared and registration selected. The countdown and the
   * loading flag are left as they were.
   */
  function CloseReset(s: AuthState): (t: AuthState)
    ensures t.mode == EnterEmail && t.isRegister
    ensures t.email == [] && t.password == [] && t.confirmPassword == []
    ensures t.error == [] && t.success == []
    ensures |t.otp| == CodeLength && forall i :: 0 <= i < |t.otp| ==> t.otp[i] == []
    ensures t.countdown == s.countdown && t.loading == s.loading
  {
    s.(mode := EnterEmail, email := "", password := "", confirmPassword := "",
       otp := EmptyOtp, error := "", success := "", isRegister := true)
  }

  /** Closing forgets everything but the countdown and the loading flag, and closing twice is closing once. */
  lemma CloseForgetsState(s: AuthState, s': AuthState)
    requires s.countdown == s'.countdown && s.loading == s'.loading
    ensures CloseReset(s) == CloseReset(s')
    ensures CloseReset(s) == Initial.(countdown := s.countdown, loading := s.loading)
    ensures CloseReset(CloseReset(s)) == CloseReset(s)
  {
  }

  /** The effect on `initialMode`: a caller asking for `reset_password` forces that step. */
  function ApplyInitialMode(s: AuthState, initialMode: Option<string>): (t: AuthState)
    ensures initialMode == Some(ResetPasswordMode) ==> t == s.(mode := ResetPassword)
    ensures initialMode != Some(ResetPasswordMode) ==> t == s
  {
    if initialMode == Some(ResetPasswordMode) then s.(mode := ResetPassword) else s
  }

  /** One second of the resend countdown: values at or below 1 drop to 0 and stop. */
  function TickValue(prev: int): (next: int)
    ensures next >= 0
    ensures prev > 0 ==> next == prev - 1
    ensures prev <= 1 ==> next == 0
  {
    if prev <= 1 then 0 else prev - 1
  }

  /** One countdown tick: the countdown drops by one, never below 0, and nothing else changes. */
  function Tick(s: AuthState): (t: AuthState)
    ensures 0 <= t.countdown && (s.countdown > 0 ==> t.countdown == s.countdown - 1)
    ensures s.countdown <= 1 ==> t.countdown == 0
    ensures t.(countdown := s.countdown) == s
  {
    s.(countdown := TickValue(s.countdown))
  }

  /** The countdown after `n` ticks. */
  function Ticks(c: int, n: nat): int
    decreases n
  {
    if n == 0 then c else Ticks(TickValue(c), n - 1)
  }

  /** From a non-negative start the countdown goes down by one a tick and stays at 0. */
  lemma {:induction false} TicksCount(c: int, n: nat)
    requires c >= 0
    ensures Ticks(c, n) == if n >= c then 0 else c - n
    decreases n
  {
    if n > 0 {
      TicksCount(TickValue(c), n - 1);
    }
  }

  /** The resend button is enabled (`disabled={countdown > 0 || loading}`). */
  function CanResend(s: AuthState): (b: bool)
    ensures Valid(s) ==> (b <==> s.countdown == 0 && !s.loading)
    ensures s.countdown > 0 ==> !b
  {
    !(s.countdown > 0 || s.loading)
  }

  /**
   * After a code is sent the resend button stays disabled for 59 ticks and is
   * enabled from the 60th on (while nothing is loading).
   */
  lemma ResendAfterSixtyTicks(s: AuthState, n: nat)
    requires s.countdown == ResendSeconds && !s.loading
    ensures CanResend(s.(countdown := Ticks(s.countdown, n))) <==> n >= 60
  {
    TicksCount(s.countdown, n);
  }

  // ---------------------------------------------------------------------
  // Sending and entering the code
  // ---------------------------------------------------------------------

  /**
   * `handleSendOtp`: asks the provider to mail a code. On success the dialog
   * moves to code entry and starts the 60-second countdown; a provider error
   * is shown verbatim and the step stays; a throw shows a fixed message.
   */
  function HandleSendOtp(s: AuthState, answer: Answer): (r: Step)
    ensures r.call == Some(SendOtpCall(s.email)) && !r.closeScheduled
    ensures !r.state.loading
    ensures answer == Ok ==>
      r.state == s.(mode := VerifyCode, countdown := ResendSeconds, error := "", success := CodeSentTo(s.email), loading := false)
    ensures answer.Err? ==> r.state == s.(error := answer.message, loading := false)
    ensures answer == Throw ==> r.state == s.(error := SendCodeFailed, loading := false)
  {
    var busy := s.(error := "", loading := true);
    var t := match answer
      case Ok => busy.(success := CodeSentTo(s.email), mode := VerifyCode, countdown := ResendSeconds)
      case Err(m) => busy.(error := m)
      case Throw => busy.(error := SendCodeFailed);
    Step(t.(loading := false), Some(SendOtpCall(s.email)), false)
  }

  /** `value.replace(/\D/g, '')`: the digits of `v`, in order. */
  function DigitsOnly(v: string): (d: string)
    ensures |d| <= |v|
    ensures forall i :: 0 <= i < |d| ==> IsDigit(d[i])
    ensures (forall i :: 0 <= i < |v| ==> IsDigit(v[i])) ==> d == v
    ensures (forall i :: 0 <= i < |v| ==> !IsDigit(v[i])) ==> d == []
    decreases |v|
  {
    if v == [] then []
    else (if IsDigit(v[0]) then [v[0]] else []) + DigitsOnly(v[1..])
  }

  /**
   * Stripping non-digits works piecewise: the digits of `a + b` are the digits
   * of `a` followed by the digits of `b`. With the one-character cases above
   * this fixes the result on every input (for `"1a2"` it is `"12"`).
   */
  lemma {:induction false} DigitsOnlyAppend(a: string, b: string)
    ensures DigitsOnly(a + b) == DigitsOnly(a) + DigitsOnly(b)
    decreases |a|
  {
    if a == [] {
      assert a + b == b;
    } else {
      var head := if IsDigit(a[0]) then [a[0]] else [];
      assert (a + b)[0] == a[0] && (a + b)[1..] == a[1..] + b;
      DigitsOnlyAppend(a[1..], b);
      calc {
        DigitsOnly(a + b);
        head + DigitsOnly(a[1..] + b);
        head + (DigitsOnly(a[1..]) + DigitsOnly(b));
        (head + DigitsOnly(a[1..])) + DigitsOnly(b);
        DigitsOnly(a) + DigitsOnly(b);
      }
    }
  }

  /** The concrete case: letters between digits are dropped and the digits kept in order. */
  lemma DigitsOnlyMixed()
    ensures DigitsOnly("1a2") == "12"
  {
  }

  /**
   * `handleOtpChange`: a value longer than one character is ignored; otherwise
   * slot `index` takes the value with non-digits removed and no other slot changes.
   */
  function HandleOtpChange(s: AuthState, index: int, value: string): (t: AuthState)
    requires 0 <= index < |s.otp|
    ensures |value| > 1 ==> t == s
    ensures |t.otp| == |s.otp|
    ensures forall i :: 0 <= i < |s.otp| && i != index ==> t.otp[i] == s.otp[i]
    ensures |value| <= 1 ==> t.otp[index] == DigitsOnly(value)
    ensures |value| <= 1 ==> SlotOk(t.otp[index]) && (t.otp[index] == value <==> SlotOk(value))
    ensures t.(otp := s.otp) == s
  {
    if |value| > 1 then s
    else s.(otp := s.otp[index := DigitsOnly(value)])
  }

  /** `otp.join('')`: the slots' characters, slot after slot. */
  function Join(slots: seq<string>): (t: string)
    ensures (forall i :: 0 <= i < |slots| ==> slots[i] == []) ==> t == []
    ensures (forall i :: 0 <= i < |slots| ==> |slots[i]| == 1) ==>
      |t| == |slots| && forall i :: 0 <= i < |slots| ==> t[i] == slots[i][0]
    decreases |slots|
  {
    if slots == [] then ""
    else
      var rest := Join(slots[1..]);
      assert forall i :: 1 <= i < |slots| ==> slots[i] == slots[1..][i - 1];
      slots[0] + rest
  }

  /** With slots of at most one character, the joined code has one character per filled slot. */
  lemma {:induction false} JoinLength(slots: seq<string>)
    requires forall i :: 0 <= i < |slots| ==> |slots[i]| <= 1
    ensures |Join(slots)| <= |slots|
    ensures |Join(slots)| == |slots| <==> forall i :: 0 <= i < |slots| ==> slots[i] != []
    decreases |slots|
  {
    if slots != [] {
      JoinLength(slots[1..]);
      assert forall i :: 1 <= i < |slots| ==> slots[i] == slots[1..][i - 1];
    }
  }

  /**
   * The verify button is enabled (`disabled={loading || otp.some(d => !d)}`);
   * in a well-formed state that is exactly when nothing loads and the joined
   * code has its full six characters.
   */
  function CanVerify(s: AuthState): (b: bool)
    ensures Valid(s) ==> (b <==> !s.loading && |Join(s.otp)| == CodeLength)
  {
    FilledIffFullCode(s);
    !s.loading && forall i :: 0 <= i < |s.otp| ==> s.otp[i] != []
  }

  /** In a well-formed state every slot is filled exactly when the joined code has six characters. */
  lemma FilledIffFullCode(s: AuthState)
    ensures Valid(s) ==> (|Join(s.otp)| == CodeLength <==> forall i :: 0 <= i < |s.otp| ==> s.otp[i] != [])
  {
    if Valid(s) {
      JoinLength(s.otp);
    }
  }

  /**
   * `handleVerifyOtp`: a code that is not six characters long is rejected
   * without asking the provider. Otherwise a verified code leads a new
   * registration on to choosing a password, and signs an existing user in and
   * schedules the dialog to close.
   */
  function HandleVerifyOtp(s: AuthState, answer: Answer): (r: Step)
    ensures !r.state.loading
    ensures |Join(s.otp)| != CodeLength ==>
      r == Step(s.(error := IncompleteCode, loading := false), None, false)
    ensures |Join(s.otp)| == CodeLength ==> r.call == Some(VerifyOtpCall(s.email, Join(s.otp)))
    ensures |Join(s.otp)| == CodeLength && answer == Ok && s.isRegister ==>
      r.state == s.(mode := SetPassword, error := "", success := VerifiedSetPassword, loading := false) && !r.closeScheduled
    ensures |Join(s.otp)| == CodeLength && answer == Ok && !s.isRegister ==>
      r.state == s.(error := "", success := LoggedIn, loading := false) && r.closeScheduled
    ensures |Join(s.otp)| == CodeLength && answer.Err? ==>
      r.state == s.(error := answer.message, loading := false) && !r.closeScheduled
    ensures |Join(s.otp)| == CodeLength && answer == Throw ==>
      r.state == s.(error := VerifyFailed, loading := false) && !r.closeScheduled
  {
    var token := Join(s.otp);
    var busy := s.(error := "", loading := true);
    if |token| != CodeLength then
      Step(busy.(error := IncompleteCode, loading := false), None, false)
    else
      var call := Some(VerifyOtpCall(s.email, token));
      match answer
      case Err(m) => Step(busy.(error := m, loading := false), call, false)
      case Throw => Step(busy.(error := VerifyFailed, loading := false), call, false)
      case Ok =>
        if s.isRegister then
          Step(busy.(success := VerifiedSetPassword, mode := SetPassword, loading := false), call, false)
        else
          Step(busy.(success := LoggedIn, loading := false), call, true)
  }

  /**
   * In a well-formed state the code is sent to the provider exactly when every
   * slot is filled, which is when the verify button is enabled (loading aside).
   */
  lemma VerifyCallsExactlyWhenFilled(s: AuthState, answer: Answer)
    requires Valid(s)
    ensures HandleVerifyOtp(s, answer).call.Some? <==> forall i :: 0 <= i < |s.otp| ==> s.otp[i] != []
    ensures CanVerify(s) ==> HandleVerifyOtp(s, answer).call.Some?
  {
    JoinLength(s.otp);
  }

  // ---------------------------------------------------------------------
  // Passwords
  // ---------------------------------------------------------------------

  /** Local password check: a mismatch is reported before a short password. */
  function PasswordProblem(password: string, confirm: string): (e: Option<string>)
    ensures e == None <==> password == confirm && |password| >= MinPasswordLength
    ensures password != confirm ==> e == Some(PasswordMismatch)
    ensures password == confirm && |password| < MinPasswordLength ==> e == Some(PasswordTooShort)
  {
    if password != confirm then Some(PasswordMismatch)
    else if |password| < MinPasswordLength then Some(PasswordTooShort)
    else None
  }

  /**
   * The shared shape of `handleSetPassword` and `handleResetPassword`: a local
   * check that never touches `loading` and never calls the provider, then
   * `updatePassword`; success shows `done` and schedules the close.
   */
  function SubmitNewPassword(s: AuthState, answer: Answer, done: string, failed: string): (r: Step)
    ensures PasswordProblem(s.password, s.confirmPassword).Some? ==>
      r == Step(s.(error := PasswordProblem(s.password, s.confirmPassword).value), None, false)
    ensures PasswordProblem(s.password, s.confirmPassword).None? ==>
      && r.call == Some(UpdatePasswordCall(s.password))
      && (r.closeScheduled <==> answer == Ok)
      && (answer == Ok ==> r.state == s.(error := "", success := done, loading := false))
      && (answer.Err? ==> r.state == s.(error := answer.message, loading := false))
      && (answer == Throw ==> r.state == s.(error := failed, loading := false))
  {
    var checked := s.(error := "");
    match PasswordProblem(s.password, s.confirmPassword)
    case Some(e) => Step(checked.(error := e), None, false)
    case None =>
      var call := Some(UpdatePasswordCall(s.password));
      match answer
      case Ok => Step(checked.(success := done, loading := false), call, true)
      case Err(m) => Step(checked.(error := m, loading := false), call, false)
      case Throw => Step(checked.(error := failed, loading := false), call, false)
  }

  /** `handleSetPassword`: the last step of a registration. */
  function HandleSetPassword(s: AuthState, answer: Answer): (r: Step)
    ensures r.call.Some? <==> s.password == s.confirmPassword && |s.password| >= MinPasswordLength
    ensures r.call.None? ==>
      !r.closeScheduled && r.state == s.(error := if s.password != s.confirmPassword then PasswordMismatch else PasswordTooShort)
    ensures r.call.Some? && answer == Ok ==>
      r.state == s.(error := "", success := Registered, loading := false) && r.closeScheduled
    ensures r.call.Some? && answer.Err? ==> r.state == s.(error := answer.message, loading := false) && !r.closeScheduled
    ensures r.call.Some? && answer == Throw ==> r.state == s.(error := SetPasswordFailed, loading := false) && !r.closeScheduled
  {
    SubmitNewPassword(s, answer, Registered, SetPasswordFailed)
  }

  /** `handleResetPassword`: choosing a new password after a recovery link. */
  function HandleResetPassword(s: AuthState, answer: Answer): (r: Step)
    ensures r.call.Some? <==> s.password == s.confirmPassword && |s.password| >= MinPasswordLength
    ensures r.call.None? ==>
      !r.closeScheduled && r.state == s.(error := if s.password != s.confirmPassword then PasswordMismatch else PasswordTooShort)
    ensures r.call.Some? && answer == Ok ==>
      r.state == s.(error := "", success := PasswordResetDone, loading := false) && r.closeScheduled
    ensures r.call.Some? && answer.Err? ==> r.state == s.(error := answer.message, loading := false) && !r.closeScheduled
    ensures r.call.Some? && answer == Throw ==> r.state == s.(error := ResetFailed, loading := false) && !r.closeScheduled
  {
    SubmitNewPassword(s, answer, PasswordResetDone, ResetFailed)
  }

  /**
   * Setting a password after registering and resetting it after a recovery
   * link behave alike: same provider call, same step, same loading flag and
   * the same close; they differ only in the texts they show.
   */
  lemma SetAndResetAgree(s: AuthState, answer: Answer)
    ensures var a, b := HandleSetPassword(s, answer), HandleResetPassword(s, answer);
      && a.call == b.call && a.closeScheduled == b.closeScheduled
      && a.state.(error := "", success := "") == b.state.(error := "", success := "")
      && (answer.Err? || a.call.None? ==> a.state == b.state)
  {
  }

  /**
   * Both password forms: differing entries give the mismatch message even when
   * the password is also too short; equal entries shorter than six characters
   * give the too-short message; in both cases nothing is sent and `loading`
   * keeps its value.
   */
  lemma PasswordChecksLocally(s: AuthState, answer: Answer)
    requires s.password != s.confirmPassword || |s.password| < MinPasswordLength
    ensures var set_, reset := HandleSetPassword(s, answer), HandleResetPassword(s, answer);
      && set_.call == None && reset.call == None
      && set_.state.loading == s.loading && reset.state.loading == s.loading
      && set_.state.mode == s.mode && !set_.closeScheduled
      && (s.password != s.confirmPassword ==> set_.state.error == PasswordMismatch && reset.state.error == PasswordMismatch)
      && (s.password == s.confirmPassword ==> set_.state.error == PasswordTooShort && reset.state.error == PasswordTooShort)
  {
  }

  /** `handlePasswordLogin`: sign in with e-mail and password; success schedules the close. */
  function HandlePasswordLogin(s: AuthState, answer: Answer): (r: Step)
    ensures r.call == Some(SignInCall(s.email, s.password))
    ensures r.closeScheduled <==> answer == Ok
    ensures answer == Ok ==> r.state == s.(error := "", success := LoggedIn, loading := false)
    ensures answer.Err? ==> r.state == s.(error := answer.message, loading := false)
    ensures answer == Throw ==> r.state == s.(error := LoginFailed, loading := false)
  {
    var busy := s.(error := "", loading := true);
    var call := Some(SignInCall(s.email, s.password));
    match answer
    case Ok => Step(busy.(success := LoggedIn, loading := false), call, true)
    case Err(m) => Step(busy.(error := m, loading := false), call, false)
    case Throw => Step(busy.(error := LoginFailed, loading := false), call, false)
  }

  /** `handleForgotPassword`: ask for a reset e-mail; the dialog stays open on the same step. */
  function HandleForgotPassword(s: AuthState, answer: Answer): (r: Step)
    ensures r.call == Some(ResetPasswordCall(s.email)) && !r.closeScheduled
    ensures answer == Ok ==> r.state == s.(error := "", success := ResetMailSent, loading := false)
    ensures answer.Err? ==> r.state == s.(error := answer.message, loading := false)
    ensures answer == Throw ==> r.state == s.(error := ResetMailFailed, loading := false)
  {
    var busy := s.(error := "", loading := true);
    var call := Some(ResetPasswordCall(s.email));
    match answer
    case Ok => Step(busy.(success := ResetMailSent, loading := false), call, false)
    case Err(m) => Step(busy.(error := m, loading := false), call, false)
    case Throw => Step(busy.(error := ResetMailFailed, loading := false), call, false)
  }

  // ---------------------------------------------------------------------
  // Moving between steps
  // ---------------------------------------------------------------------

  /** `resetState`: clears the six form fields. */
  function ResetState(s: AuthState): (t: AuthState)
    ensures t.email == [] && t.password == [] && t.confirmPassword == []
    ensures t.otp == EmptyOtp && t.error == [] && t.success == []
    ensures t.mode == s.mode && t.isRegister == s.isRegister
    ensures t.loading == s.loading && t.countdown == s.countdown
  {
    s.(email := "", password := "", confirmPassword := "", otp := EmptyOtp, error := "", success := "")
  }

  /** `switchMode`: clear the form and go to step `m`; registration-or-login is kept. */
  function SwitchMode(s: AuthState, m: Mode): (t: AuthState)
    ensures t.mode == m && t.otp == EmptyOtp
    ensures t.email == [] && t.password == [] && t.confirmPassword == [] && t.error == [] && t.success == []
    ensures t.isRegister == s.isRegister && t.loading == s.loading && t.countdown == s.countdown
  {
    ResetState(s).(mode := m)
  }

  /** Switching differs from closing only in the target step, `isRegister`, and nothing else. */
  lemma SwitchVersusClose(s: AuthState)
    ensures SwitchMode(s, EnterEmail) == CloseReset(s).(isRegister := s.isRegister)
  {
  }

  /** The "log in" / "register" toggles on the e-mail step: pick the flow and clear the messages. */
  function ChooseRegister(s: AuthState, register: bool): (t: AuthState)
    ensures t.isRegister == register && t.error == [] && t.success == []
    ensures t.(isRegister := s.isRegister, error := s.error, success := s.success) == s
  {
    s.(isRegister := register, error := "", success := "")
  }

  // ---------------------------------------------------------------------
  // The whole dialog as one transition relation
  // ---------------------------------------------------------------------

  /** Everything that can happen to the dialog. */
  datatype Event =
    | Close
    | InitialMode(initialMode: Option<string>)
    | TickEvent
    | EditEmail(email: string)
    | EditPassword(password: string)
    | EditConfirm(confirm: string)
    | OtpInput(index: int, value: string)
    | SendCode(answer: Answer)
    | Verify(answer: Answer)
    | SubmitSetPassword(answer: Answer)
    | SubmitLogin(answer: Answer)
    | SubmitForgot(answer: Answer)
    | SubmitReset(answer: Answer)
    | Switch(target: Mode)
    | ToggleRegister(register: bool)
    | RegisterAnew

  /** The events that call the identity provider. */
  predicate CallsProvider(e: Event)
  {
    e.SendCode? || e.Verify? || e.SubmitSetPassword? || e.SubmitLogin? || e.SubmitForgot? || e.SubmitReset?
  }

  /**
   * The event is offered by the step on screen (its control is rendered and
   * enabled). No provider call is offered while another one is loading, and
   * each form is offered only on its own step.
   */
  function Enabled(s: AuthState, e: Event): (b: bool)
    ensures b && CallsProvider(e) ==> !s.loading
    ensures b && (e.Verify? || e.OtpInput?) ==> s.mode == VerifyCode
    ensures b && e.SendCode? ==> s.mode in {EnterEmail, VerifyCode}
    ensures b && e.SendCode? && s.mode == VerifyCode ==> s.countdown <= 0
  {
    match e
    case Close => true
    case InitialMode(_) => true
    case TickEvent => true
    case EditEmail(_) => s.mode in {EnterEmail, PasswordLogin, ForgotPassword}
    case EditPassword(_) => s.mode in {SetPassword, PasswordLogin, ResetPassword}
    case EditConfirm(_) => s.mode in {SetPassword, ResetPassword}
    case OtpInput(i, _) => s.mode == VerifyCode && 0 <= i < |s.otp|
    case SendCode(_) =>
      || (s.mode == EnterEmail && !s.loading && s.email != [])
      || (s.mode == VerifyCode && CanResend(s))
    case Verify(_) => s.mode == VerifyCode && CanVerify(s)
    case SubmitSetPassword(_) => s.mode == SetPassword && !s.loading && s.password != [] && s.confirmPassword != []
    case SubmitLogin(_) => s.mode == PasswordLogin && !s.loading && s.email != [] && s.password != []
    case SubmitForgot(_) => s.mode == ForgotPassword && !s.loading && s.email != []
    case SubmitReset(_) => s.mode == ResetPassword && !s.loading && s.password != [] && s.confirmPassword != []
    case Switch(m) =>
      || (s.mode == EnterEmail && !s.isRegister && m == PasswordLogin)
      || (s.mode == VerifyCode && m == EnterEmail)
      || (s.mode == PasswordLogin && m in {ForgotPassword, EnterEmail})
      || (s.mode == ForgotPassword && m == PasswordLogin)
    case ToggleRegister(b) => s.mode == EnterEmail && s.isRegister != b
    case RegisterAnew => s.mode == PasswordLogin
  }

  /**
   * The state after event `e`. Only a tick or a successful code request moves
   * the countdown; only closing, the register toggles and "register anew"
   * change the registration flag; only closing, a sent code, a successful
   * verify, a step switch or a recovery link change the step.
   */
  function Next(s: AuthState, e: Event): (t: AuthState)
    requires e.OtpInput? ==> 0 <= e.index < |s.otp|
    ensures t.countdown != s.countdown ==> e == TickEvent || e == SendCode(Ok)
    ensures t.isRegister != s.isRegister ==> e == Close || e.ToggleRegister? || e == RegisterAnew
    ensures t.mode != s.mode ==>
      e == Close || e.InitialMode? || e == SendCode(Ok) || e == Verify(Ok) || e.Switch? || e == RegisterAnew
  {
    match e
    case Close => CloseReset(s)
    case InitialMode(m) => ApplyInitialMode(s, m)
    case TickEvent => Tick(s)
    case EditEmail(v) => s.(email := v)
    case EditPassword(v) => s.(password := v)
    case EditConfirm(v) => s.(confirmPassword := v)
    case OtpInput(i, v) => HandleOtpChange(s, i, v)
    case SendCode(a) => HandleSendOtp(s, a).state
    case Verify(a) => HandleVerifyOtp(s, a).state
    case SubmitSetPassword(a) => HandleSetPassword(s, a).state
    case SubmitLogin(a) => HandlePasswordLogin(s, a).state
    case SubmitForgot(a) => HandleForgotPassword(s, a).state
    case SubmitReset(a) => HandleResetPassword(s, a).state
    case Switch(m) => SwitchMode(s, m)
    case ToggleRegister(b) => ChooseRegister(s, b)
    case RegisterAnew => SwitchMode(s.(isRegister := true), EnterEmail)
  }

  /** Every event keeps the code slots well formed and the countdown within 0..60. */
  lemma NextPreservesValid(s: AuthState, e: Event)
    requires Valid(s)
    requires e.OtpInput? ==> 0 <= e.index < |s.otp|
    ensures Valid(Next(s, e))
  {
    if e.OtpInput? {
      var t := Next(s, e);
      forall i | 0 <= i < |t.otp| ensures SlotOk(t.otp[i]) {
        if i != e.index {
          assert t.otp[i] == s.otp[i];
        }
      }
    }
  }

  /**
   * The step graph of the dialog: e-mail entry leads to code entry (by sending
   * a code) and to password login; code entry leads on to choosing a password
   * or back to e-mail entry; password login leads to the forgotten-password
   * step and back to e-mail entry; the forgotten-password step returns to
   * login. Closing goes back to e-mail entry and a recovery link forces the
   * reset step; nothing else changes the step.
   */
  predicate Edge(from: Mode, to: Mode)
  {
    || from == to
    || (from == EnterEmail && to in {VerifyCode, PasswordLogin})
    || (from == VerifyCode && to in {SetPassword, EnterEmail})
    || (from == PasswordLogin && to in {ForgotPassword, EnterEmail})
    || (from == ForgotPassword && to == PasswordLogin)
  }

  /** Offered events move along the step graph, apart from closing and a forced reset step. */
  lemma StepsFollowGraph(s: AuthState, e: Event)
    requires Enabled(s, e)
    ensures var t := Next(s, e);
      || Edge(s.mode, t.mode)
      || (e == Close && t.mode == EnterEmail)
      || (e.InitialMode? && t.mode == ResetPassword)
  {
  }

  /**
   * Choosing a password is reached only by verifying a code on a registration:
   * an offered event that enters `SetPassword` from elsewhere is a successful
   * verify with `isRegister` set.
   */
  lemma SetPasswordOnlyAfterRegistrationVerify(s: AuthState, e: Event)
    requires Enabled(s, e)
    requires s.mode != SetPassword && Next(s, e).mode == SetPassword
    ensures e == Verify(Ok) && s.isRegister && s.mode == VerifyCode
  {
  }
}
