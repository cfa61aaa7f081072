# bm-vakansiya questionnaire bot, modelled in Dafny

This is a model of the Telegram bot in `index.js`, which takes job applications.

- **The questionnaire.** Each chat fills in nine text answers in a fixed order, then sends a photo. Each answer is checked by its step's validator.
- **Submission.** The completed questionnaire goes to the administrators' chat as an HTML-escaped summary, with accept and reject buttons.
- **The decision.** When an administrator presses a button, the verdict is relayed back to the applicant.

The modules follow the program's parts:

- `Strings`: JavaScript's `trim`, `split`, and the decimal rendering of chat ids, each paired with the properties used elsewhere (idempotence, split/join inverses, parse-back).
- `Html`: `escapeHtml` as its three `replaceAll` passes. It is proved equal to a per-character escaping and proved invertible.
- `Schema`: the ten steps. Each validator is written as an explicit predicate (trimmed-length thresholds counted in UTF-16 code units, as JavaScript's `length` counts, the birth-date and phone regexes as character-class predicates). The wording of each question and error is included.
- `AdminText`: `formatAdminText` as a layout of captioned lines. It is proved that every answer can be read back, escaped, under its own caption and in question order. It is also proved that the applicant cannot change the number of tags.
- `Admin`:
  - `sendToAdmin`: how far delivery gets is an input (`Delivery`).
  - The callback handler: whether the message to the applicant is delivered is an input.
- `Outbox`: what the bot sends. Each send is recorded as an `Output`, in order.
- `Conversation`: the message handler and the commands, as functions from the sessions before an event to the sessions after it and the sends.
- `Engine`: `class Bot`. It holds the `sessions` map and updates it in place, as the program does. Each method is proved to do what the matching `Conversation` function says, and each method that changes the map is proved to keep every session consistent.

## Model

| member | source | states |
|---|---|---|
| Strings.Trim | index.js:278 | the result is empty or begins and ends with a non-space character |
| Strings.TrimStrips | index.js:278 | the trimmed text is the text less white space before and after it |
| Strings.TrimIdempotent | index.js:278 | trimming a trimmed answer changes nothing |
| Strings.TrimEmptyIffAllSpace | index.js:54 | the trimmed text is empty exactly when the text is all whitespace |
| Strings.Split | index.js:289 | there is at least one piece, and no piece contains the separator |
| Strings.SplitJoin | index.js:289 | splitting pieces joined by the separator gives back those pieces when none contains it |
| Strings.JoinSplit | index.js:289 | joining the pieces of a split with the separator gives back the text |
| Strings.SplitCount | index.js:289 | a split has one piece more than there are separators in the text |
| Strings.Utf16Length | index.js:54 | the length JavaScript reports, in UTF-16 code units, lies between the number of code points and twice that |
| Strings.IntToDecimal | index.js:192-193 | a chat id in a template literal is a non-empty string of digits and a minus sign |
| Strings.ParseRendersBack | index.js:300 | the decimal text of a chat id reads back as that same id |
| Html.ReplaceAll | index.js:32-34 | every character of the result is a character of the text other than the replaced one, or comes from the replacement; text without that character is unchanged |
| Html.EscapeHtml | index.js:30-35 | the output holds no `<` or `>`, and text without `&`, `<`, `>` is left as it is |
| Html.EscapeOneCharacter | index.js:30-35 | the three passes map one character to exactly its own entity |
| Html.EscapeHtmlPerCharacter | index.js:30-35 | because `&` is replaced first, escaping equals escaping one character at a time, with no double escaping |
| Html.UnescapeEscapeHtml | index.js:30-35 | reading the entities back recovers the original text, so escaping is injective |
| Schema.StepsShape | index.js:50-111 | ten steps, nine text steps under the nine answer keys in order, then the photo step |
| Schema.TextStepAt | index.js:50-105 | each of the first nine steps is a text step under its answer key, with a real validator |
| Schema.PhotoStepAt | index.js:106-111 | a step is the photo step exactly when it is the tenth |
| Schema.Thresholds | index.js:54-67 | fullName accepts iff the trimmed text is at least 5 UTF-16 code units long; birthDate and phone accept iff the trimmed text matches their patterns |
| Schema.ShortThresholds | index.js:73-87 | address, education and university accept iff the trimmed text is at least 2 UTF-16 code units long |
| Schema.NonEmptyThresholds | index.js:91-103 | experience, languages and certificates accept iff the trimmed length is at least 1 |
| Schema.LengthInCodeUnits | index.js:54-85 | lengths count UTF-16 code units: three emoji pass the five-character full name and one emoji the two-character address, while `abc` and `a` do not |
| Schema.BirthDateIsMask | index.js:60-61 | a birth date is exactly `DDDD-DD-DD` or `DD.DD.DDDD`, digit for digit |
| Schema.PhoneIsPattern | index.js:67 | a phone is an optional `+`, a digit, then at least eight digits, spaces, parentheses or dashes |
| Schema.PatternExamples | index.js:59-67 | `2004-05-17` and `17.05.2004` are dates while `2004/05/17` and `17-05-2004` are not; `+998901234567` is a phone and `123` is not |
| Schema.StoredAnswerValid | index.js:274-278 | the trimmed answer that is stored passes the validator exactly when the typed text does |
| Schema.BlankRejected | index.js:54-103 | a whitespace-only answer fails every text step's validator |
| Schema.EmptyRejected | index.js:54-103 | the empty answer fails every text step's validator |
| AdminText.SenderFallbacks | index.js:145-149 | the username falls back to `-`, the display name is empty without first and last names, and the link text falls back to `Foydalanuvchi` |
| AdminText.LayoutFields | index.js:154-164 | the template shows the nine answers in question order |
| AdminText.LinkSplit | index.js:147-149 | the link to the submitter holds two tags; the placeholder holds none |
| AdminText.FooterPieces | index.js:166-167 | the closing lines split into seven pieces with a link and five without |
| AdminText.AdminTextPieces | index.js:151-168 | after each caption comes the escaped answer, then the line break and any rule |
| AdminText.AdminTextRoundTrip | index.js:144-169 | every answer can be read back intact from the text under its own caption, whatever characters it holds |
| AdminText.AdminTextTagCount | index.js:144-169 | the text holds 26 `<` with a link to the submitter and 24 without, whatever the answers and names hold |
| Admin.Submission | index.js:176-184 | the stored photo file id, captioned with the admin text, when that id is non-empty, else the bare text; it goes to the administrators |
| Admin.PhotoSubmission | index.js:171-184 | with the photo stored, the first send is that photo (or the bare text for an empty id) captioned with the admin text, exactly when the submission goes through |
| Admin.StoredAnswersReadBack | index.js:144-169 | once the photo id is stored, each of the nine answers still reads back from the admin text as stored |
| Admin.SendToAdmin | index.js:171-205 | the submission and then the buttons when both go through; the applicant is told exactly when a send fails; nothing is sent after a refused send |
| Admin.SubmissionReadsBack | index.js:172-184 | the administrators can read every answer back from the submission, whichever form it takes |
| Admin.ParseCallback | index.js:288-291 | a parse yields a non-empty action and target, neither containing `:` |
| Admin.DecisionText | index.js:293-297 | a message for the applicant exists exactly for `accept` and `reject` |
| Admin.OnCallback | index.js:287-305 | the press is acknowledged once, last, with no notice for malformed data, "Bajarildi ✅" on success and "Userga yuborib bo‘lmadi" when the relay fails; the applicant gets the verdict exactly when there is one and it goes through |
| Admin.CallbackRoundTrip | index.js:289 | `action:<id>` parses back to the same action and to a target that reads back as the same id |
| Admin.ControlsDecode | index.js:192-193 | the two buttons decode to accept and reject for the applicant's chat |
| Admin.DecisionRelayed | index.js:293-301 | accept and reject send the applicant their fixed texts and acknowledge the press, or give only the failure notice |
| Admin.UnknownActionSilent | index.js:293-301 | an unknown action sends nothing and is acknowledged as done |
| Admin.MalformedOnlyAnswered | index.js:288-291 | data without a colon only acknowledges the press |
| Admin.EmptyActionOnlyAnswered | index.js:288-291 | data starting with a colon has an empty action and only acknowledges the press |
| Admin.EmptyTargetOnlyAnswered | index.js:288-291 | data whose action is followed by a colon and then nothing or another colon has an empty target and only acknowledges the press |
| Conversation.AskNext | index.js:136-142 | one question, of the current step, exactly when the chat has a session at a step of the schema |
| Conversation.StartForm | index.js:126-134 | a fresh session at step 0 with no answers replaces any earlier one; the greeting, then the first question |
| Conversation.ResetSession | index.js:113-115 | the chat's session is gone and every other session is unchanged; a no-op without a session |
| Conversation.OnCancel | index.js:211-215 | the session is dropped, then the cancellation notice and the menu are sent |
| Conversation.OnStart | index.js:208 | the menu only; nothing changes |
| Conversation.OnPhoto | index.js:248-269 | other chats' sessions are unchanged, and every send goes to the chat or to the administrators |
| Conversation.OnText | index.js:271-283 | other chats' sessions are unchanged, and every send goes to the chat or to the administrators |
| Conversation.OnMessage | index.js:225-284 | other chats' sessions are unchanged, and every send goes to the chat or to the administrators |
| Conversation.KeysAdvance | index.js:278 | storing the current step's answer adds exactly that step's key |
| Conversation.AdvanceConsistent | index.js:278-279 | storing a valid answer keeps the session consistent one step further on |
| Conversation.OnMessageConsistent | index.js:225-284 | every session stays at a step between 0 and 9, holds exactly the answers before it, and each answer passes its validator |
| Conversation.NoSessionInert | index.js:240-242 | with no session, any message but the two menu texts changes nothing and sends nothing |
| Conversation.StartRestarts | index.js:230 | the start text overwrites any session with step 0 and no answers, with no merge |
| Conversation.InfoAnswered | index.js:232-238 | the information text is answered in any state and changes nothing |
| Conversation.PastEndIgnored | index.js:244-245 | a session past the last step ignores the message |
| Conversation.TextlessIgnored | index.js:272 | at a text step, a message without text is ignored |
| Conversation.InvalidAnswerRejected | index.js:274-276 | an invalid answer leaves the sessions unchanged and gets exactly the step's error |
| Conversation.RejectionWorded | index.js:274-276 | the one send an invalid answer gets shows exactly the current step's `error` text |
| Conversation.ValidAnswerAdvances | index.js:278-283 | a valid answer is stored trimmed under the step's key and the step advances by exactly one, with nothing else changed; then the next question |
| Conversation.NextQuestionWorded | index.js:278-283 | the one send a valid answer gets shows exactly the next step's `ask` text |
| Conversation.OnMessageAtPhoto | index.js:248 | past the menu texts, a chat at the photo step is handled by that step |
| Conversation.OnMessageAtText | index.js:271-272 | past the menu texts, a chat at a text step is handled by that step |
| Conversation.OnTextStays | index.js:272-276 | a text step changes no session unless the answer is valid, and sends nothing without text and the step's retry for an invalid answer |
| Conversation.OnTextAdvances | index.js:278-283 | a valid answer stores the trimmed text, advances the step and asks the next question |
| Conversation.OnTextConsistent | index.js:271-283 | a text step keeps every session consistent |
| Conversation.OnTextStores | index.js:278-280 | a valid answer advances the chat's session and stores the trimmed text |
| Conversation.OnTextAsksNext | index.js:283 | after a valid answer, exactly the next question is sent |
| Conversation.PhotoMissingReminded | index.js:249-253 | at the photo step, a message without a photo changes nothing and gets the reminder |
| Conversation.PhotoCompletes | index.js:255-268 | the last (largest) photo size is stored, then the thanks, the hand-over and the menu; the session is deleted |
| Conversation.ApplicationHandedOver | index.js:255-268 | a consistent session given a photo sends the thanks, then (unless refused) the largest photo captioned with the admin text, from which all nine stored answers read back, each valid |
| Conversation.HandOver | index.js:255-268 | the same hand-over stated over the reaction's sends |
| Engine.Bot.constructor | index.js:27 | the bot starts with no sessions |
| Engine.Bot.ResetSession | index.js:113-115 | the map loses the chat's entry, as `Conversation.ResetSession` says, and every session stays consistent |
| Engine.Bot.AskNext | index.js:136-142 | sends what `Conversation.AskNext` says |
| Engine.Bot.StartForm | index.js:126-134 | the new map and the sends are those of `Conversation.StartForm`, and every session stays consistent |
| Engine.Bot.HandleStart | index.js:208 | sends what `Conversation.OnStart` says and changes nothing |
| Engine.Bot.HandleCancel | index.js:211-215 | does what `Conversation.OnCancel` says and keeps every session consistent |
| Engine.Bot.HandlePhoto | index.js:248-269 | does what `Conversation.OnPhoto` says and keeps every session consistent |
| Engine.Bot.HandleText | index.js:271-283 | does what `Conversation.OnText` says and keeps every session consistent |
| Engine.Bot.HandleMessage | index.js:225-284 | does what `Conversation.OnMessage` says and keeps every session consistent |

## Left out

- **The Telegram transport.** Polling, `sendMessage`, `sendPhoto` and `answerCallbackQuery` are not modelled. A send is an `Output` appended to the result. Whether a send to the administrators or a relayed verdict fails is an input (`Delivery`, `relayed`).
- **Startup.** Loading `BOT_TOKEN` and `ADMIN_CHAT_ID` from the environment and `process.exit` are startup I/O. `Admin` stands for the configured chat.
- **Logging.** The group-chat-id logging handler and the `console.log` in the catch block only print.
- **Keyboards.**
  - The reply keyboard of the menu and the inline-keyboard layout are not modelled.
  - The menu is a text send.
  - The buttons are modelled by their `callback_data` only.
- **Concurrency.** Interleaving across `await`s is not modelled. Neither is the library's order between the `onText` handlers and the generic `message` handler.
  - Each handler runs on its own event.
  - `/cancel` is session deletion.
  - `/start` shows the menu.
  - The main handler does not filter command text, so `/cancel` typed as an answer is also handled there as an answer.
  - The command regexes match anywhere in the text; which texts trigger them is not modelled.
- **Unicode whitespace.** JavaScript's `trim()` and `\s` cover Unicode whitespace; the model treats only ASCII space, tab, line feed, vertical tab, form feed and carriage return as whitespace.
- **Sends to the applicant are assumed to go through.** Only the sends to the administrators and the relayed verdict can fail here.
  - A failed thanks or failed-delivery notice would throw out of the handler before `resetSession`.
  - A throw from `answerCallbackQuery` is not modelled either.
- Engine.Bot.AskNext: requires the chat's step to be within the schema. `index.js` would throw a TypeError reading `step.ask` past the end. `Conversation.OnMessageConsistent` proves that no session reaches that state.
- **Question and error texts.** Questions and errors are sent as `Question(step)` and `Retry(step)` outputs. `Conversation.Wording` maps them to `Schema.Ask(step)` and `Schema.Error(step)`, and `Conversation.RejectionWorded` and `Conversation.NextQuestionWorded` state which text each reply shows. This keeps the long literals out of the handler's proofs.
- **Answer keys.** The keys of a session's answers are an enumeration (`Schema.Key`), not free strings. The photo step's own `key` is never read by the program and is not modelled.
- **Sessions are values.** A session is a value in the map, not an object shared by reference. The program's in-place updates of `session.data` and `session.stepIndex` followed by `sessions.set` become one map update; the program never keeps a second reference to a session.
- **Where the program's own behaviour is followed:**
  - A photo sent at a text step is ignored without a reply, as the code's `if (!text) return;` does, rather than getting a kind-mismatch message.
  - The administrators get only accept and reject buttons; there is no contact-request action.
  - `/cancel` confirms with "❌ Bekor qilindi.".
