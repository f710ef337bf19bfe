# HTML tutor chat: a Dafny model

This project models the core of a small React chat application that teaches
HTML. A signed-in user types questions or HTML snippets. The answer comes
either from DeepSeek's chat API or from a "local model": an ordered keyword
matcher with canned lessons. Each turn is stored in a Supabase `messages`
table. A dialog handles sign-in and sign-up by e-mail code or password, plus
password recovery.

Five modules:

- `Optional` stands in for JavaScript's `null`.
- `Text` models the three string primitives the code relies on: `includes`
  (`Contains`), `toLowerCase` (`Lower`, ASCII letters only) and `trim`
  (`Trim`, over the white space `String.prototype.trim` removes).
- `LocalReply` models `containsHtmlCode` and `generateLocalResponse`:
  - The cascade of `if`s in `generateLocalResponse` is kept as written (`GenerateLocalResponse`).
  - It is proved equal to a declarative first-match rule table (`TableReply`).
  - The random draw is an explicit `Pick` parameter.
- `Conversation` models the chat screen:
  - the send handler, as one pure step whose inputs are the DeepSeek outcome
    and the store's outcome;
  - loading the stored history;
  - the welcome-message fallback;
  - the recovery redirect in the page address.
- `AuthModal` models the dialog as a state machine:
  - each handler is a function of the identity provider's answer;
  - it reports which provider call it made and whether it scheduled the
    dialog to close;
  - countdown timers are `Tick` events;
  - `Next` and `Enabled` make the whole dialog one transition relation over
    the events that the step on screen renders and that the controls'
    `disabled` conditions allow.

Failures to store a turn are not always silent. An insert that returns an
error value is ignored. An insert that throws lands in the same `catch` block
as a failed reply, so the apology message appears after the reply that was
already shown (`App.jsx` lines 463-474). The model follows the code here, not
the intent that store failures stay invisible.

## Model

| member | source | states |
|---|---|---|
| Text.Contains | supabasetest/src/App.jsx:319 | `includes` holds exactly when the pattern occurs at some index of the string |
| Text.Lower | supabasetest/src/App.jsx:323 | lower-casing keeps the length and maps each character on its own (ASCII letters only) |
| Text.LowerKeepsLetterFree | supabasetest/src/App.jsx:323 | lower-casing neither creates nor destroys an occurrence of a pattern that holds no ASCII letter |
| Text.Trim | supabasetest/src/App.jsx:436 | `trim` yields a slice of the input with only white space outside it; the result is empty iff the input is all white space; otherwise it neither starts nor ends with white space |
| Text.TrimIdempotent | supabasetest/src/App.jsx:444 | trimming the trimmed message changes nothing |
| LocalReply.ContainsHtmlCode | supabasetest/src/App.jsx:318-320 | the text has a `<`, a `>`, and an adjacent `</` or `/>` |
| LocalReply.FirstMatchFrom | supabasetest/src/App.jsx:325-359 | the index returned is the first rule that fires; no earlier rule fires |
| LocalReply.HelpRow | supabasetest/src/App.jsx:325 | the help row of the rule table fires on exactly the help condition of `generateLocalResponse` |
| LocalReply.HelpFires | supabasetest/src/App.jsx:325-327 | a help request gets the help text whatever else the message holds |
| LocalReply.BasicFires | supabasetest/src/App.jsx:329-331 | when the basics rule is the first to fire, the reply is the basics lesson |
| LocalReply.TagsFires | supabasetest/src/App.jsx:333-335 | when the tags rule is the first to fire, the reply is the tags lesson |
| LocalReply.DivFires | supabasetest/src/App.jsx:337-339 | when the div rule is the first to fire, the reply is the div lesson |
| LocalReply.FormFires | supabasetest/src/App.jsx:341-343 | when the form rule is the first to fire, the reply is the form lesson |
| LocalReply.TableFires | supabasetest/src/App.jsx:345-347 | when the table rule is the first to fire, the reply is the table lesson |
| LocalReply.SemanticFires | supabasetest/src/App.jsx:349-351 | when the semantic rule is the first to fire, the reply is the semantic lesson |
| LocalReply.ExerciseFires | supabasetest/src/App.jsx:353-355 | when the exercise rule is the first to fire, the reply is the exercise task |
| LocalReply.GreetingFires | supabasetest/src/App.jsx:357-359 | when the greeting rule is the first to fire, the reply is the drawn greeting |
| LocalReply.NoKeywordFires | supabasetest/src/App.jsx:361-383 | with no keyword, an HTML-looking message gets code feedback and any other message gets the fallback |
| LocalReply.GenerateLocalResponse | supabasetest/src/App.jsx:322-384 | the cascade itself; the random draw enters only as the variant of a greeting, code feedback or fallback |
| LocalReply.GenerateMatchesTable | supabasetest/src/App.jsx:322-384 | the cascade of `if`s picks the same reply as the first-match rule table, for every message and draw |
| LocalReply.KeywordBeforeCode | supabasetest/src/App.jsx:361 | a message that fires any keyword never gets code feedback or the fallback |
| LocalReply.CodeFeedbackExactly | supabasetest/src/App.jsx:361-373 | code feedback is given iff no keyword fires and the message looks like HTML; the drawn variant is used |
| LocalReply.DefaultExactly | supabasetest/src/App.jsx:375-383 | the fallback is given iff no keyword fires and the message does not look like HTML |
| LocalReply.DivRuleFirst | supabasetest/src/App.jsx:337 | a message holding `div` but none of the earlier rules' characters fires the div rule first |
| LocalReply.DivSnippetGetsLesson | supabasetest/src/App.jsx:337-339 | `<div></div>` looks like HTML yet gets the div lesson, because keywords come first |
| LocalReply.DivGetsLesson | supabasetest/src/App.jsx:135 | the message `div` is answered with the div lesson text |
| LocalReply.CaseInsensitive | supabasetest/src/App.jsx:323 | the reply does not depend on the case of ASCII letters in the message |
| LocalReply.DrawChoosesVariantOnly | supabasetest/src/App.jsx:316 | the random draw picks a variant but never changes the reply's category |
| LocalReply.HtmlBasicsKeywordRedundant | supabasetest/src/App.jsx:329 | every message holding `html基础` also holds `基础`, so that keyword never decides anything |
| LocalReply.CodeFeedbackText | supabasetest/src/App.jsx:361-373 | code feedback is one of the three praise openers followed by the fixed advice |
| LocalReply.DefaultText | supabasetest/src/App.jsx:375-383 | the fallback is one of the three fallback openers followed by the suggestion footer |
| LocalReply.LocalResponse | supabasetest/src/App.jsx:358-383 | a greeting is the drawn greeting; code feedback is the drawn praise opener followed by the advice; a fallback is the drawn opener followed by the footer |
| Conversation.CanSubmit | supabasetest/src/App.jsx:436 | a send goes ahead iff nothing is loading and the input has a character that is not white space |
| Conversation.GenerateReply | supabasetest/src/App.jsx:452-458 | the local model always answers with its canned text; DeepSeek answers with the returned reply and fails exactly when the call failed |
| Conversation.Transcript | supabasetest/src/App.jsx:48-51 | DeepSeek receives the persona, then the prior conversation in order, then the new message |
| Conversation.BeginSend | supabasetest/src/App.jsx:444-447 | the user's message is shown at once, the input is cleared and loading starts; the modal's visibility and mode are untouched |
| Conversation.HandleSendMessage | supabasetest/src/App.jsx:434-478 | blank input or a pending send does nothing; signed out, the auth modal opens with no mode; otherwise the trimmed message is appended, loading ends, and only DeepSeek gets a transcript |
| Conversation.SendOutcome | supabasetest/src/App.jsx:449-477 | an accepted send appends the user's turn and the reply and stores both as the user's rows; a failed reply appends the apology and stores nothing; a thrown insert adds the apology after the reply |
| Conversation.SentMessageIsTrimmed | supabasetest/src/App.jsx:444 | the message appended is non-blank and is the input without surrounding white space |
| Conversation.PendingSendBlocksResubmit | supabasetest/src/App.jsx:436 | while a send is pending, a second submit changes nothing |
| Conversation.SignedOutHelloIsBlocked | supabasetest/src/App.jsx:438-442 | signed out, sending "你好" opens the modal and neither sends nor stores anything |
| Conversation.LocalDivLesson | supabasetest/src/App.jsx:455-466 | signed in with the local model, "div" is answered with the div lesson and both turns are stored |
| Conversation.RemoteFailureApologises | supabasetest/src/App.jsx:468-477 | a DeepSeek failure appends exactly one apology after the user's turn, stores nothing and ends loading |
| Conversation.FromRows | supabasetest/src/App.jsx:427-430 | reading stored rows keeps their order, role and content |
| Conversation.LoadMessages | supabasetest/src/App.jsx:420-432 | a successful query replaces the conversation with the stored rows; an error leaves it unchanged; input, loading and the modal's visibility and mode never change |
| Conversation.OnUserChange | supabasetest/src/App.jsx:408-414 | a signed-in user gets their history loaded; signing out empties the conversation; input, loading and the modal's visibility and mode never change |
| Conversation.StoredTurnReadsBack | supabasetest/src/App.jsx:463-466 | the two rows stored for a turn read back as the two messages the screen appended |
| Conversation.Displayed | supabasetest/src/App.jsx:493 | a non-empty conversation is shown as it is; something is always shown |
| Conversation.DisplayedWelcomeExactly | supabasetest/src/App.jsx:493 | the welcome message alone is shown iff the conversation is empty or is that message |
| Conversation.IsRecoveryHash | supabasetest/src/App.jsx:401 | the address is a recovery redirect iff `type=recovery` or `access_token` occurs in it |
| Conversation.OnMount | supabasetest/src/App.jsx:397-406 | an address naming a recovery or holding an access token opens the modal in reset-password mode and leaves messages, input and loading alone; any other address changes nothing |
| Conversation.AccessTokenIsRecovery | supabasetest/src/App.jsx:401 | `access_token` anywhere in the address marks a recovery redirect |
| Conversation.RecoveryOpensResetStep | supabasetest/src/App.jsx:401-403 | after a recovery redirect the dialog's `initialMode` effect shows the reset-password step, whatever step it was on |
| Conversation.CloseAuthModal | supabasetest/src/App.jsx:623-626 | closing hides the modal and forgets the requested mode |
| Conversation.CloseThenReopenStartsOver | supabasetest/src/App.jsx:623-627 | after a close, the dialog is at e-mail entry in registration mode and the forgotten mode does not force the reset step |
| Conversation.SignOut | supabasetest/src/App.jsx:480-483 | signing out empties the conversation, so only the welcome message shows; input, loading and the modal's visibility and mode are untouched |
| AuthModal.InitialValid | supabasetest/src/components/AuthModal.jsx:14-23 | the initial state satisfies `Valid`: six well-formed code slots and a countdown within 0..60 |
| AuthModal.ApplyInitialMode | supabasetest/src/components/AuthModal.jsx:27-31 | `reset_password` forces the reset step; any other value changes nothing |
| AuthModal.CloseReset | supabasetest/src/components/AuthModal.jsx:33-44 | closing returns to e-mail entry in registration mode with every field cleared; countdown and loading are kept |
| AuthModal.CloseForgetsState | supabasetest/src/components/AuthModal.jsx:33-44 | closing forgets everything but countdown and loading, and closing twice equals closing once |
| AuthModal.TickValue | supabasetest/src/components/AuthModal.jsx:51-56 | a positive countdown drops by one, and values at or below 1 stop at 0 |
| AuthModal.Tick | supabasetest/src/components/AuthModal.jsx:50-57 | a tick lowers the countdown by one, never below 0, stops at 0, and touches nothing else |
| AuthModal.TicksCount | supabasetest/src/components/AuthModal.jsx:48-59 | from a start `c >= 0`, after n ticks the countdown is `c - n`, or 0 once n reaches c |
| AuthModal.CanResend | supabasetest/src/components/AuthModal.jsx:383 | in a well-formed state resend is enabled iff the countdown is 0 and nothing loads; never while the countdown runs |
| AuthModal.ResendAfterSixtyTicks | supabasetest/src/components/AuthModal.jsx:383 | after a code is sent, resend stays disabled for 59 ticks and is enabled from the 60th |
| AuthModal.HandleSendOtp | supabasetest/src/components/AuthModal.jsx:61-80 | always asks the provider for the e-mail; success moves to code entry and starts the 60 s countdown; an error is shown verbatim; a throw shows a fixed text; loading ends |
| AuthModal.DigitsOnly | supabasetest/src/components/AuthModal.jsx:85 | the result holds only digits and is no longer than the input; all-digit input is kept and digit-free input is emptied |
| AuthModal.DigitsOnlyAppend | supabasetest/src/components/AuthModal.jsx:85 | stripping non-digits works piecewise, which with the one-character cases fixes the result on every input |
| AuthModal.DigitsOnlyMixed | supabasetest/src/components/AuthModal.jsx:85 | `"1a2"` becomes `"12"` |
| AuthModal.HandleOtpChange | supabasetest/src/components/AuthModal.jsx:82-86 | input longer than one character is ignored; otherwise only the edited slot changes, and it becomes the value with non-digits removed: empty or one digit |
| AuthModal.Join | supabasetest/src/components/AuthModal.jsx:106 | slots of one character each join to a code of one character per slot, in slot order; empty slots join to the empty code |
| AuthModal.JoinLength | supabasetest/src/components/AuthModal.jsx:105-106 | with slots of at most one character, the code has full length iff every slot is filled |
| AuthModal.HandleVerifyOtp | supabasetest/src/components/AuthModal.jsx:101-131 | a code not six long is rejected without a call; otherwise the code is verified; success leads a registration to choosing a password and signs a login in with a scheduled close; for every answer the full state is given and only step, messages and loading change |
| AuthModal.CanVerify | supabasetest/src/components/AuthModal.jsx:373 | in a well-formed state verify is enabled iff nothing loads and the joined code has six characters |
| AuthModal.VerifyCallsExactlyWhenFilled | supabasetest/src/components/AuthModal.jsx:373 | in a well-formed state the code is sent iff every slot is filled, so an enabled verify button always reaches the provider |
| AuthModal.PasswordProblem | supabasetest/src/components/AuthModal.jsx:137-145 | a password passes iff both entries match and it has at least 6 characters; a mismatch is reported before shortness |
| AuthModal.SubmitNewPassword | supabasetest/src/components/AuthModal.jsx:133-162 | a local failure shows its message without a call and leaves loading alone; otherwise the password is updated, only success closes, and only the messages and loading change |
| AuthModal.HandleSetPassword | supabasetest/src/components/AuthModal.jsx:133-162 | the update is made iff the entries match and are long enough; a refused entry shows the mismatch or too-short text; success shows "registered" and closes; only the messages and loading change |
| AuthModal.HandleResetPassword | supabasetest/src/components/AuthModal.jsx:203-232 | the update is made iff the entries match and are long enough; a refused entry shows the mismatch or too-short text; success shows "reset done" and closes; only the messages and loading change |
| AuthModal.SetAndResetAgree | supabasetest/src/components/AuthModal.jsx:203-232 | set-password and reset-password make the same call, reach the same step and close alike; they differ only in the texts shown |
| AuthModal.PasswordChecksLocally | supabasetest/src/components/AuthModal.jsx:137-145 | a mismatch (even with a short password) or a short password is reported locally, with no call and loading unchanged |
| AuthModal.HandlePasswordLogin | supabasetest/src/components/AuthModal.jsx:164-182 | signs in with e-mail and password; the dialog closes iff the provider accepts; success, error and throw texts as `handlePasswordLogin` shows them; only the messages and loading change |
| AuthModal.HandleForgotPassword | supabasetest/src/components/AuthModal.jsx:184-201 | requests the reset mail; never closes; success, error and throw texts as `handleForgotPassword` shows them; only the messages and loading change |
| AuthModal.ResetState | supabasetest/src/components/AuthModal.jsx:234-241 | clears the six form fields and keeps step, flow, loading and countdown |
| AuthModal.SwitchMode | supabasetest/src/components/AuthModal.jsx:243-246 | moves to the requested step with the form cleared, keeping registration-or-login |
| AuthModal.SwitchVersusClose | supabasetest/src/components/AuthModal.jsx:243-246 | switching to e-mail entry equals closing, except that it keeps `isRegister` |
| AuthModal.ChooseRegister | supabasetest/src/components/AuthModal.jsx:320 | the login/register toggle sets the flow and clears the messages; every other field is unchanged |
| AuthModal.Enabled | supabasetest/src/components/AuthModal.jsx:292-545 | no provider call is offered while one is loading; verify and code input only on code entry; resend only once the countdown has run out |
| AuthModal.Next | supabasetest/src/components/AuthModal.jsx:33-246 | only a tick or a sent code moves the countdown; only closing and the register buttons change the flow; only closing, a sent code, a successful verify, a switch or a recovery link change the step |
| AuthModal.NextPreservesValid | supabasetest/src/components/AuthModal.jsx:82-86 | every event keeps six well-formed code slots and a countdown within 0..60 |
| AuthModal.StepsFollowGraph | supabasetest/src/components/AuthModal.jsx:292-545 | every offered event moves along the dialog's step graph, apart from closing and a forced reset step |
| AuthModal.SetPasswordOnlyAfterRegistrationVerify | supabasetest/src/components/AuthModal.jsx:117-120 | the choose-password step is entered only by a successful code check on a registration |

## Left out

- The HTTP request to DeepSeek is not modelled: headers, API key, model name, temperature, the JSON body and parsing the response. Its outcome is the `Completion` parameter. A non-success status, a network error and a parse error all become `CompletionFailed`.
- The Supabase calls (`select`, `insert`, and the provider's `sendOtp`, `verifyOtp`, `signIn`, `resetPassword`, `updatePassword`) are outcome parameters. Row-level filtering of `messages` and the `created_at` ordering are the store's business, so `LoadMessages` takes the rows in the order they arrive.
- The local model's 500–1000 ms delay, `setTimeout`, `setInterval` and React's batching of state updates are not modelled. Timers become `Tick` events or the `closeScheduled` flag.
- Conversation.HandleSendMessage: the result is the final state of one send. Two overlapping sends cannot happen, because the loading flag blocks the second. Stale closures over `messages` are not modelled.
- AuthModal.HandleSendOtp: sending a code again from the e-mail step starts a second interval while the first may still run. That step's button ignores the countdown (`AuthModal.jsx` line 308), and the step is reached again by "← 返回修改邮箱" (line 393) or by closing and reopening, since the component stays mounted (line 46). The model ticks one shared countdown, so it does not model the countdown dropping two per second in that case. The resend button on the code step cannot cause this: it is enabled only at 0, after a lone interval has already cleared itself (lines 52-54).
- AuthModal.Next: each handler is one atomic step from the click to the provider's answer. A provider answer that arrives after the dialog was closed is not modelled, for example a successful verify setting the choose-password step (lines 117-120). Neither is a scheduled `onClose` that fires after the dialog was reopened (lines 123, 155, 175, 225). Conversation.CloseThenReopenStartsOver holds only without that interleaving.
- AuthModal.Enabled: over-approximates what can reach a handler in two ways. The browser's own form validation is not modelled: `required`, `minLength={6}` (`AuthModal.jsx` lines 417, 430, 467, 562, 575) and `type="email"` (lines 297, 449, 518) block a submit before its handler runs. So in the browser a 1-5 character password never reaches `handlePasswordLogin`, `handleSetPassword` or `handleResetPassword`, and a malformed e-mail never reaches `sendOtp`; `Enabled` offers those submits, and the too-short text that `PasswordChecksLocally` pins is what the handler shows once reached, whereas the browser shows its own `minLength` message instead. Also the state has no `isOpen`: while the dialog is closed it renders nothing (line 46), yet `Enabled` still offers form events.
- Text.Lower: `toLowerCase` is modelled for ASCII letters only. The keywords and `<`, `>` and `/` are ASCII or CJK, so the reply does not depend on other case mappings except when a message holds non-ASCII capitals that lower-case into a keyword.
- Strings are sequences of Unicode code points. JavaScript's `length` counts UTF-16 units, so the two differ only for characters outside the Basic Multilingual Plane: in the password-length check, and in `handleOtpChange` for an emoji typed into a code slot.
- LocalReply constants: the help text and the lesson texts keep only their opening line. The greeting, praise and fallback variants, the code advice, the suggestion footer and the apology are verbatim.
- The persona and the welcome message keep only their opening line.
- Focus moves between code slots (`handleOtpKeyDown`, the focus part of `handleOtpChange`), scrolling, the model selector, `window.history.replaceState` and the message layout are not modelled. They change nothing the model states.
- The unused `params` in the mount effect, and `signUp`, which the dialog destructures but never calls, are not modelled.
