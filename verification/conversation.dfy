/**
 * The chat screen: its state, the send-message handler as one pure step
 * (with the reply generator's and the message store's answers as inputs),
 * loading stored history, the welcome-message fallback and the detection of
 * a password-recovery redirect in the page address.
 */
module Conversation {
  import opened Optional
  import opened Text
  import LocalReply
  import AuthModal

  /** `role` of a chat message: `'user'`, `'assistant'` or `'system'`. */
  datatype Role = UserRole | AssistantRole | SystemRole

  datatype Message = Message(role: Role, content: string)

  /** The reply generator the user selected: the local rule engine or the DeepSeek API. */
  datatype ChatModel = Local | DeepSeek

  /** What the DeepSeek call came back with: a reply, or a failure (non-success status, network or parse error). */
  datatype Completion = Completed(reply: string) | CompletionFailed

  /** What inserting the two rows did: stored them, returned an error value, or threw. */
  datatype InsertOutcome = Inserted | InsertError | InsertThrew

  /** A row of the `messages` table, as `handleSendMessage` writes it and `loadMessages` reads it. */
  datatype Row = Row(userId: string, role: Role, content: string)

  datatype User = User(id: string, email: string)

  /** The component state of the chat screen that the handlers change. */
  datatype ChatState = ChatState(
    messages: seq<Message>,
    input: string,
    isLoading: bool,
    showAuthModal: bool,
    authModalMode: Option<string>)

  /** The state after a send, the transcript sent to DeepSeek (if any) and the rows handed to the store. */
  datatype SendResult = SendResult(state: ChatState, request: Option<seq<Message>>, rows: seq<Row>)

  /** The system persona prepended to every DeepSeek transcript (only its opening line is kept). */
  const Persona: string := "你是一位幽默且专业的 HTML 老师！你的名字叫\"小码老师\"。"

  /** Shown while the conversation is empty; never stored (only its opening line is kept). */
  const Welcome: Message := Message(AssistantRole, "👋 嘿！欢迎来到 HTML 学习之旅！我是你的专属导师\"小码老师\"！")

  /** Appended in place of a reply when generating it, or storing it, throws. */
  const Apology: Message :=
    Message(AssistantRole, "😅 哎呀，出了点问题！请稍后再试。如果你使用的是 DeepSeek，请检查 API Key 是否正确。")


  // ---------------------------------------------------------------------
  // Sending a message
  // ---------------------------------------------------------------------

  /**
   * A send goes ahead (the guard of `handleSendMessage`, and the enabled
   * submit button): nothing is loading and the input holds a character that
   * is not white space.
   */
  function CanSubmit(s: ChatState): (b: bool)
    ensures b <==> !s.isLoading && exists i :: 0 <= i < |s.input| && !IsSpace(s.input[i])
  {
    !s.isLoading && Trim(s.input) != []
  }

  /** The transcript sent to DeepSeek: the persona, then the prior conversation, then the new message. */
  function Transcript(prior: seq<Message>, userMessage: Message): (t: seq<Message>)
    ensures |t| == |prior| + 2
    ensures t[0] == Message(SystemRole, Persona)
    ensures t[1..|t| - 1] == prior && t[|t| - 1] == userMessage
  {
    [Message(SystemRole, Persona)] + prior + [userMessage]
  }

  /**
   * The reply text, or `None` when generating it threw: the local model always
   * answers, with its canned text for the message; DeepSeek answers with what
   * the call returned, and fails exactly when the call failed.
   */
  function GenerateReply(model: ChatModel, text: string, pick: LocalReply.Pick, completion: Completion): (r: Option<string>)
    ensures model == Local ==> r == Some(LocalReply.LocalResponse(text, pick))
    ensures model == DeepSeek ==> (r.None? <==> completion == CompletionFailed)
    ensures model == DeepSeek && completion.Completed? ==> r == Some(completion.reply)
  {
    match model
    case Local => Some(LocalReply.LocalResponse(text, pick))
    case DeepSeek => if completion.Completed? then Some(completion.reply) else None
  }

  /** The synchronous first half of a send: show the user's message, clear the input, mark loading. */
  function BeginSend(s: ChatState, userMessage: Message): (p: ChatState)
    ensures p.isLoading && p.input == []
    ensures p.messages == s.messages + [userMessage]
    ensures p.showAuthModal == s.showAuthModal && p.authModalMode == s.authModalMode
  {
    s.(messages := s.messages + [userMessage], input := "", isLoading := true)
  }

  /**
   * `handleSendMessage`. A blank input or a pending send does nothing; with no
   * signed-in user the auth modal opens instead. Otherwise the trimmed message
   * is appended, the reply is generated (locally, or by DeepSeek from the
   * persona plus the conversation so far), appended and handed to the store
   * as two rows; a failed generation appends the apology and stores nothing.
   * Loading always ends cleared. `messages` is the state the handler saw when
   * it started.
   */
  function HandleSendMessage(
    s: ChatState, user: Option<User>, model: ChatModel,
    pick: LocalReply.Pick, completion: Completion, insert: InsertOutcome): (r: SendResult)
    ensures !CanSubmit(s) ==> r == SendResult(s, None, [])
    ensures CanSubmit(s) && user.None? ==>
      r == SendResult(s.(showAuthModal := true, authModalMode := None), None, [])
    ensures CanSubmit(s) && user.Some? ==>
      var userMessage := Message(UserRole, Trim(s.input));
      && r.state.input == [] && !r.state.isLoading
      && r.state.showAuthModal == s.showAuthModal && r.state.authModalMode == s.authModalMode
      && |r.state.messages| >= |s.messages| + 2
      && r.state.messages[..|s.messages| + 1] == s.messages + [userMessage]
      && (r.request.Some? <==> model == DeepSeek)
      && (r.request.Some? ==> r.request.value == Transcript(s.messages, userMessage))
  {
    var text := Trim(s.input);
    if !CanSubmit(s) then
      SendResult(s, None, [])
    else if user.None? then
      SendResult(s.(showAuthModal := true, authModalMode := None), None, [])
    else
      var userMessage := Message(UserRole, text);
      var pending := BeginSend(s, userMessage);
      var request := if model == DeepSeek then Some(Transcript(s.messages, userMessage)) else None;
      match GenerateReply(model, text, pick, completion)
      case None =>
        SendResult(pending.(messages := pending.messages + [Apology], isLoading := false), request, [])
      case Some(reply) =>
        var answered := pending.messages + [Message(AssistantRole, reply)];
        var rows := [Row(user.value.id, UserRole, text), Row(user.value.id, AssistantRole, reply)];
        var shown := if insert == InsertThrew then answered + [Apology] else answered;
        SendResult(pending.(messages := shown, isLoading := false), request, rows)
  }

  /** The messages a send appended, after the ones it started from. */
  function Appended(s: ChatState, r: SendResult): seq<Message>
    requires |s.messages| <= |r.state.messages|
  {
    r.state.messages[|s.messages|..]
  }

  /**
   * The outcome of an accepted send, message by message: the user's turn and
   * the reply, stored as two rows of that user's; or the user's turn and the
   * apology, with nothing stored. A store that throws adds the apology after
   * a reply that was already shown.
   */
  lemma SendOutcome(
    s: ChatState, user: User, model: ChatModel,
    pick: LocalReply.Pick, completion: Completion, insert: InsertOutcome)
    requires CanSubmit(s)
    ensures var r := HandleSendMessage(s, Some(user), model, pick, completion, insert);
      var text := Trim(s.input);
      match GenerateReply(model, text, pick, completion)
      case None =>
        && Appended(s, r) == [Message(UserRole, text), Apology]
        && r.rows == []
      case Some(reply) =>
        && Appended(s, r) ==
             [Message(UserRole, text), Message(AssistantRole, reply)] + (if insert == InsertThrew then [Apology] else [])
        && r.rows == [Row(user.id, UserRole, text), Row(user.id, AssistantRole, reply)]
  {
    var r := HandleSendMessage(s, Some(user), model, pick, completion, insert);
    var text := Trim(s.input);
    var sent := s.messages + [Message(UserRole, text)];
    match GenerateReply(model, text, pick, completion)
    case None =>
      assert r.state.messages == sent + [Apology];
      assert Appended(s, r) == (sent + [Apology])[|s.messages|..];
    case Some(reply) =>
      var answered := sent + [Message(AssistantRole, reply)];
      assert r.state.messages == (if insert == InsertThrew then answered + [Apology] else answered);
      assert answered[|s.messages|..] == [Message(UserRole, text), Message(AssistantRole, reply)];
      assert (answered + [Apology])[|s.messages|..] == answered[|s.messages|..] + [Apology];
  }

  /** The user's message as stored is non-blank and carries no surrounding white space. */
  lemma SentMessageIsTrimmed(
    s: ChatState, user: User, model: ChatModel,
    pick: LocalReply.Pick, completion: Completion, insert: InsertOutcome)
    requires CanSubmit(s)
    ensures var r := HandleSendMessage(s, Some(user), model, pick, completion, insert);
      var m := r.state.messages[|s.messages|].content;
      && m != [] && !IsSpace(m[0]) && !IsSpace(m[|m| - 1])
      && exists a: nat, b: nat :: StripsTo(s.input, a, b, m)
  {
  }

  /** While a send is pending the loading flag is up, so a second submit does nothing. */
  lemma PendingSendBlocksResubmit(
    s: ChatState, m: Message, user: Option<User>, model: ChatModel,
    pick: LocalReply.Pick, completion: Completion, insert: InsertOutcome)
    ensures var p := BeginSend(s, m);
      HandleSendMessage(p, user, model, pick, completion, insert) == SendResult(p, None, [])
  {
  }

  /** Scenario: nobody is signed in and the user sends "你好"; the modal opens and nothing is sent or stored. */
  lemma SignedOutHelloIsBlocked(
    s: ChatState, model: ChatModel, pick: LocalReply.Pick, completion: Completion, insert: InsertOutcome)
    requires s.input == "你好" && !s.isLoading
    ensures var r := HandleSendMessage(s, None, model, pick, completion, insert);
      && r.state.messages == s.messages
      && r.state.showAuthModal && r.state.authModalMode == None
      && r.request == None && r.rows == []
  {
    assert !IsSpace(s.input[0]);
  }

  /** Scenario: signed in, local model, the user sends "div"; the div lesson comes back and both turns are stored. */
  lemma LocalDivLesson(s: ChatState, user: User, pick: LocalReply.Pick, completion: Completion, insert: InsertOutcome)
    requires s.input == "div" && !s.isLoading
    ensures var r := HandleSendMessage(s, Some(user), Local, pick, completion, insert);
      && Appended(s, r)[..2] == [Message(UserRole, "div"), Message(AssistantRole, LocalReply.DivLesson)]
      && r.rows == [Row(user.id, UserRole, "div"), Row(user.id, AssistantRole, LocalReply.DivLesson)]
  {
    TrimDiv();
    LocalReply.DivGetsLesson(pick);
    SendOutcome(s, user, Local, pick, completion, insert);
  }

  lemma TrimDiv()
    ensures Trim("div") == "div"
  {
    assert SkipSpace("div", 0) == 0;
    assert SkipSpaceBack("div", 0, 3) == 3;
  }

  /** Scenario: DeepSeek fails; exactly one apology follows the user's turn, nothing is stored, loading ends. */
  lemma RemoteFailureApologises(
    s: ChatState, user: User, pick: LocalReply.Pick, insert: InsertOutcome)
    requires CanSubmit(s)
    ensures var r := HandleSendMessage(s, Some(user), DeepSeek, pick, CompletionFailed, insert);
      && r.state.messages == s.messages + [Message(UserRole, Trim(s.input)), Apology]
      && r.rows == [] && !r.state.isLoading
  {
  }

  // ---------------------------------------------------------------------
  // Stored history
  // ---------------------------------------------------------------------

  /** The messages a list of stored rows reads back as (`loadMessages` keeps role and content). */
  function FromRows(rows: seq<Row>): (ms: seq<Message>)
    ensures |ms| == |rows|
    ensures forall i :: 0 <= i < |rows| ==> ms[i].role == rows[i].role && ms[i].content == rows[i].content
  {
    seq(|rows|, i requires 0 <= i < |rows| => Message(rows[i].role, rows[i].content))
  }

  /** `loadMessages`: on a successful query the conversation becomes the stored rows, in their order; on an error it stays. */
  function LoadMessages(s: ChatState, fetched: Option<seq<Row>>): (t: ChatState)
    ensures fetched.Some? ==> t.messages == FromRows(fetched.value)
    ensures fetched.None? ==> t == s
    ensures t.input == s.input && t.isLoading == s.isLoading
    ensures t.showAuthModal == s.showAuthModal && t.authModalMode == s.authModalMode
  {
    match fetched
    case Some(rows) => s.(messages := FromRows(rows))
    case None => s
  }

  /** The effect on the signed-in user: load the history for a user, clear the conversation without one. */
  function OnUserChange(s: ChatState, user: Option<User>, fetched: Option<seq<Row>>): (t: ChatState)
    ensures user.None? ==> t.messages == []
    ensures user.Some? ==> t == LoadMessages(s, fetched)
    ensures t.input == s.input && t.isLoading == s.isLoading
    ensures t.showAuthModal == s.showAuthModal && t.authModalMode == s.authModalMode
  {
    if user.Some? then LoadMessages(s, fetched) else s.(messages := [])
  }

  /**
   * Storing a successful turn and reading it back gives the same two messages
   * the screen appended: the rows are a faithful record of the turn.
   */
  lemma StoredTurnReadsBack(
    s: ChatState, user: User, model: ChatModel,
    pick: LocalReply.Pick, completion: Completion, insert: InsertOutcome)
    requires CanSubmit(s)
    requires GenerateReply(model, Trim(s.input), pick, completion).Some?
    ensures var r := HandleSendMessage(s, Some(user), model, pick, completion, insert);
      FromRows(r.rows) == Appended(s, r)[..2]
  {
    SendOutcome(s, user, model, pick, completion, insert);
  }

  // ---------------------------------------------------------------------
  // What the screen shows, and the recovery redirect
  // ---------------------------------------------------------------------

  /** `allMessages`: the conversation, or the welcome message alone while it is empty. */
  function Displayed(messages: seq<Message>): (shown: seq<Message>)
    ensures |shown| >= 1
    ensures messages != [] ==> shown == messages
  {
    if |messages| == 0 then [Welcome] else messages
  }

  /** Only the welcome message is on screen exactly when the conversation is empty or is that message alone. */
  lemma DisplayedWelcomeExactly(messages: seq<Message>)
    ensures Displayed(messages) == [Welcome] <==> messages == [] || messages == [Welcome]
    ensures Welcome in Displayed(messages) ==> messages == [] || Welcome in messages
  {
  }

  /** The page address carries a password-recovery redirect: one of the two markers occurs in it. */
  function IsRecoveryHash(hash: string): (b: bool)
    ensures b <==> (exists i: nat :: OccursAt(hash, "type=recovery", i)) || (exists i: nat :: OccursAt(hash, "access_token", i))
  {
    Contains(hash, "type=recovery") || Contains(hash, "access_token")
  }

  /** The mount effect: a recovery redirect opens the auth modal in reset-password mode. */
  function OnMount(s: ChatState, hash: string): (t: ChatState)
    ensures IsRecoveryHash(hash) ==> t.showAuthModal && t.authModalMode == Some(AuthModal.ResetPasswordMode)
    ensures !IsRecoveryHash(hash) ==> t == s
    ensures t.messages == s.messages && t.input == s.input && t.isLoading == s.isLoading
  {
    if IsRecoveryHash(hash) then s.(showAuthModal := true, authModalMode := Some(AuthModal.ResetPasswordMode)) else s
  }

  /** An address with an access token in it, wherever it stands, is a recovery redirect. */
  lemma AccessTokenIsRecovery(before: string, after: string)
    ensures IsRecoveryHash(before + "access_token" + after)
  {
    var h := before + "access_token" + after;
    assert h[|before|..|before| + 12] == "access_token";
    assert OccursAt(h, "access_token", |before|);
  }

  /**
   * A recovery redirect reaches the dialog: the mode the mount effect hands
   * down makes the dialog's `initialMode` effect show the reset-password step,
   * whatever step it was on.
   */
  lemma RecoveryOpensResetStep(s: ChatState, hash: string, dialog: AuthModal.AuthState)
    requires IsRecoveryHash(hash)
    ensures var t := OnMount(s, hash);
      t.showAuthModal && AuthModal.ApplyInitialMode(dialog, t.authModalMode).mode == AuthModal.ResetPassword
  {
  }

  /**
   * Closing the dialog from the chat screen and then letting the dialog's
   * close effect run leaves a dialog that a later plain opening shows at
   * e-mail entry: the forgotten mode no longer forces the reset step.
   */
  lemma CloseThenReopenStartsOver(s: ChatState, dialog: AuthModal.AuthState)
    ensures var t := CloseAuthModal(s);
      var d := AuthModal.ApplyInitialMode(AuthModal.CloseReset(dialog), t.authModalMode);
      !t.showAuthModal && d.mode == AuthModal.EnterEmail && d.isRegister
  {
  }

  /** The modal's close callback: hide it and forget the requested mode. */
  function CloseAuthModal(s: ChatState): (t: ChatState)
    ensures !t.showAuthModal && t.authModalMode.None?
    ensures t.messages == s.messages && t.input == s.input && t.isLoading == s.isLoading
  {
    s.(showAuthModal := false, authModalMode := None)
  }

  /** Signing out empties the conversation and leaves the rest of the screen as it was. */
  function SignOut(s: ChatState): (t: ChatState)
    ensures t.messages == [] && Displayed(t.messages) == [Welcome]
    ensures t.input == s.input && t.isLoading == s.isLoading
    ensures t.showAuthModal == s.showAuthModal && t.authModalMode == s.authModalMode
  {
    s.(messages := [])
  }
}
