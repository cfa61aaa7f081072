/**
 * The per-chat questionnaire as a state machine over values (index.js:113-142,
 * 208-215, 225-284): the sessions before an event, the event, and what the
 * bot sends and the sessions after it. The `Engine` module runs the same
 * machine in place; this module states and proves what it does.
 */
module Conversation {
  import opened Optional
  import opened Strings
  import opened Schema
  import opened Outbox
  import opened AdminText
  import opened Admin

  /** A chat's progress: the step awaiting an answer and the answers so far. */
  datatype Session = Session(stepIndex: nat, data: Answers)

  type Sessions = map<ChatId, Session>

  /**
   * An incoming message: its chat, its text if any, the file ids of its
   * photo in the sizes Telegram lists (smallest first), and its sender.
   */
  datatype Message = Message(chat: ChatId, text: Option<string>, photos: seq<string>, from: Option<Sender>)

  /** The sessions after an event, and the sends it made, in order. */
  datatype Reaction = Reaction(sessions: Sessions, out: seq<Output>)

  const StartTrigger: string := "📝 Anketa to‘ldirish"
  const InfoTrigger: string := "ℹ️ Ma’lumot"
  const MenuText: string := "👇 Menyu:"
  const StartedText: string := "✅ <b>Anketa boshlandi.</b>\nSavollarga ketma-ket javob bering.\nBekor qilish: /cancel"
  const InfoText: string := "Bu bot vakansiya/ish uchun anketa qabul qiladi.\n📝 <b>Anketa to‘ldirish</b> tugmasini bosing."
  const PhotoErrorText: string := "❗️Iltimos, rasmni <b>Photo</b> qilib yuboring."
  const ThanksText: string := "✅ <b>Anketangiz qabul qilindi!</b>\nRahmat. Tez orada siz bilan bog‘lanamiz. 📞"
  const CancelledText: string := "❌ Bekor qilindi."

  /** The menu message; its reply keyboard offers the two trigger texts. */
  function Menu(chat: ChatId): Output {
    Text(User(chat), MenuText)
  }

  /** The question of the chat's current step, when it has a session (askNext). */
  function AskNext(sessions: Sessions, chat: ChatId): (out: seq<Output>)
    ensures |out| <= 1
    ensures |out| == 1 <==> chat in sessions && sessions[chat].stepIndex < |Steps|
    ensures |out| == 1 ==> out[0] == Question(User(chat), sessions[chat].stepIndex)
  {
    if chat in sessions && sessions[chat].stepIndex < |Steps| then
      [Question(User(chat), sessions[chat].stepIndex)]
    else []
  }

  /**
   * The text a send shows: a question or a retry shows its step's `ask` or
   * `error`, the other sends their own text. A question past the schema, or
   * a retry at the photo step, has no wording.
   */
  function Wording(o: Output): Option<string> {
    match o
    case Text(_, body) => Some(body)
    case Question(_, i) => if i < |Steps| then Some(Ask(i)) else None
    case Retry(_, i) => if i < PhotoIndex then Some(Error(i)) else None
    case Photo(_, _, caption) => Some(caption)
    case Buttons(_, body, _) => Some(body)
    case Ack(notice) => notice
  }

  /** Every send goes to the chat itself or to the administrators, and none is a callback answer. */
  predicate Addressed(out: seq<Output>, chat: ChatId) {
    forall i :: 0 <= i < |out| ==> !out[i].Ack? && (out[i].to == User(chat) || out[i].to == Admin)
  }

  lemma AddressedAppend(a: seq<Output>, b: seq<Output>, chat: ChatId)
    requires Addressed(a, chat) && Addressed(b, chat)
    ensures Addressed(a + b, chat)
  {
    forall i | 0 <= i < |a + b|
      ensures !(a + b)[i].Ack? && ((a + b)[i].to == User(chat) || (a + b)[i].to == Admin)
    {
      if i >= |a| {
        assert (a + b)[i] == b[i - |a|];
      }
    }
  }

  /** Sessions other than `chat`'s are as they were. */
  ghost predicate OthersUnchanged(sessions: Sessions, sessions': Sessions, chat: ChatId) {
    forall c :: c != chat ==> (c in sessions' <==> c in sessions) && (c in sessions ==> sessions'[c] == sessions[c])
  }

  /** startForm: a fresh session at the first step, replacing any earlier one, then the greeting and the first question. */
  function StartForm(sessions: Sessions, chat: ChatId): (r: Reaction)
    ensures chat in r.sessions && r.sessions[chat] == Session(0, map[])
    ensures OthersUnchanged(sessions, r.sessions, chat)
    ensures r.out == [Text(User(chat), StartedText), Question(User(chat), 0)]
  {
    var sessions' := sessions[chat := Session(0, map[])];
    Reaction(sessions', [Text(User(chat), StartedText)] + AskNext(sessions', chat))
  }

  /** resetSession: the chat's session is gone; nothing else changes. */
  function ResetSession(sessions: Sessions, chat: ChatId): (r: Sessions)
    ensures chat !in r && OthersUnchanged(sessions, r, chat)
    ensures chat !in sessions ==> r == sessions
  {
    sessions - {chat}
  }

  /** The `/cancel` command: the session is dropped, the cancellation confirmed and the menu shown. */
  function OnCancel(sessions: Sessions, chat: ChatId): (r: Reaction)
    ensures chat !in r.sessions && OthersUnchanged(sessions, r.sessions, chat)
    ensures r.out == [Text(User(chat), CancelledText), Menu(chat)]
  {
    Reaction(ResetSession(sessions, chat), [Text(User(chat), CancelledText), Menu(chat)])
  }

  /** The `/start` command: only the menu. */
  function OnStart(sessions: Sessions, chat: ChatId): (r: Reaction)
    ensures r.sessions == sessions && r.out == [Menu(chat)]
  {
    Reaction(sessions, [Menu(chat)])
  }

  /** Whether a message is one of the two menu texts, which are handled in every state. */
  predicate IsTrigger(text: Option<string>) {
    text == Some(StartTrigger) || text == Some(InfoTrigger)
  }

  /** The photo step: without a photo, the reminder; with one, the largest size is kept, the questionnaire goes to the administrators and the session ends. */
  function OnPhoto(sessions: Sessions, m: Message, s: Session, delivery: Delivery): (r: Reaction)
    ensures OthersUnchanged(sessions, r.sessions, m.chat) && Addressed(r.out, m.chat)
  {
    var chat := m.chat;
    if m.photos == [] then Reaction(sessions, [Text(User(chat), PhotoErrorText)])
    else
      var d := s.data[PhotoFileId := m.photos[|m.photos| - 1]];
      var sent := SendToAdmin(chat, d, m.from, delivery);
      AddressedAppend([Text(User(chat), ThanksText)], sent, chat);
      AddressedAppend([Text(User(chat), ThanksText)] + sent, [Menu(chat)], chat);
      Reaction(ResetSession(sessions, chat), [Text(User(chat), ThanksText)] + sent + [Menu(chat)])
  }

  /** A text step: no text is ignored, an invalid answer gets the step's error, a valid one is stored trimmed and the next question asked. */
  function OnText(sessions: Sessions, m: Message, s: Session): (r: Reaction)
    requires s.stepIndex < PhotoIndex && Steps[s.stepIndex].TextStep?
    ensures OthersUnchanged(sessions, r.sessions, m.chat) && Addressed(r.out, m.chat)
  {
    var chat := m.chat;
    var step := Steps[s.stepIndex];
    if m.text.None? || m.text.value == "" then Reaction(sessions, [])
    else if !Validate(step.check, m.text.value) then Reaction(sessions, [Retry(User(chat), s.stepIndex)])
    else
      var sessions' := sessions[chat := Session(s.stepIndex + 1, s.data[step.key := Trim(m.text.value)])];
      Reaction(sessions', AskNext(sessions', chat))
  }

  /**
   * The main message handler. The menu texts are served first; then a chat
   * without a session, or whose step is past the end, is ignored; otherwise
   * the current step takes the message.
   */
  function OnMessage(sessions: Sessions, m: Message, delivery: Delivery): (r: Reaction)
    ensures OthersUnchanged(sessions, r.sessions, m.chat) && Addressed(r.out, m.chat)
  {
    var chat := m.chat;
    if m.text == Some(StartTrigger) then StartForm(sessions, chat)
    else if m.text == Some(InfoTrigger) then Reaction(sessions, [Text(User(chat), InfoText)])
    else if chat !in sessions then Reaction(sessions, [])
    else
      var s := sessions[chat];
      if s.stepIndex >= |Steps| then Reaction(sessions, [])
      else
        var step := Steps[s.stepIndex];
        if step.PhotoStep? then OnPhoto(sessions, m, s, delivery) else OnText(sessions, m, s)
  }

  // ---------------------------------------------------------------- what a session holds

  /** The keys of the answers to the first `n` questions. */
  function KeysBefore(n: nat): set<Key>
    requires n <= |AnswerKeys|
  {
    if n == 0 then {} else KeysBefore(n - 1) + {AnswerKeys[n - 1]}
  }

  /**
   * A session as the handler keeps it: at a step of the schema, holding
   * the answers to exactly the questions before it, each passing its
   * step's validator.
   */
  ghost predicate Consistent(s: Session) {
    && s.stepIndex <= PhotoIndex
    && s.data.Keys == KeysBefore(s.stepIndex)
    && forall i :: 0 <= i < s.stepIndex ==>
         AnswerKeys[i] in s.data && Steps[i].TextStep? && Validate(Steps[i].check, s.data[AnswerKeys[i]])
  }

  ghost predicate AllConsistent(sessions: Sessions) {
    forall c :: c in sessions ==> Consistent(sessions[c])
  }

  /** Storing a valid answer to the current question keeps the session consistent, one step further on. */
  lemma AdvanceConsistent(s: Session, t: string)
    requires Consistent(s) && s.stepIndex < PhotoIndex
    requires Steps[s.stepIndex].TextStep? && Validate(Steps[s.stepIndex].check, t)
    ensures Consistent(Session(s.stepIndex + 1, s.data[Steps[s.stepIndex].key := Trim(t)]))
  {
    var n := s.stepIndex;
    TextStepAt(n);
    KeysAdvance(s.data, n, Trim(t));
    AdvanceAnswers(s, t);
    assert Session(n + 1, s.data[Steps[n].key := Trim(t)]) == Session(n + 1, s.data[AnswerKeys[n] := Trim(t)]);
  }

  lemma KeysAdvance(d: Answers, n: nat, v: string)
    requires n < |AnswerKeys| && d.Keys == KeysBefore(n)
    ensures d[AnswerKeys[n] := v].Keys == KeysBefore(n + 1)
  {
  }

  lemma AdvanceAnswers(s: Session, t: string)
    requires Consistent(s) && s.stepIndex < PhotoIndex
    requires Steps[s.stepIndex].TextStep? && Validate(Steps[s.stepIndex].check, t)
    ensures var n := s.stepIndex; var d := s.data[AnswerKeys[n] := Trim(t)];
      forall i :: 0 <= i < n + 1 ==> AnswerKeys[i] in d && Steps[i].TextStep? && Validate(Steps[i].check, d[AnswerKeys[i]])
  {
    StepsShape();
    var n := s.stepIndex;
    var d := s.data[AnswerKeys[n] := Trim(t)];
    StoredAnswerValid(Steps[n].check, t);
    forall i | 0 <= i < n + 1
      ensures AnswerKeys[i] in d && Steps[i].TextStep? && Validate(Steps[i].check, d[AnswerKeys[i]])
    {
      if i < n {
        assert KeyIndex(AnswerKeys[i]) != KeyIndex(AnswerKeys[n]);
      }
    }
  }

  /**
   * The handler keeps every session consistent; in particular a session's
   * step never passes the photo step, since only text steps advance it.
   */
  lemma OnMessageConsistent(sessions: Sessions, m: Message, delivery: Delivery)
    requires AllConsistent(sessions)
    ensures AllConsistent(OnMessage(sessions, m, delivery).sessions)
  {
    var chat := m.chat;
    if !IsTrigger(m.text) && chat in sessions {
      var s := sessions[chat];
      if s.stepIndex < PhotoIndex {
        OnMessageAtText(sessions, m, delivery);
        OnTextConsistent(sessions, m, s);
      } else {
        OnMessageAtPhoto(sessions, m, delivery);
      }
    }
  }

  /** A text step keeps every session consistent: a stored answer is a valid one, at the step's own key. */
  lemma OnTextConsistent(sessions: Sessions, m: Message, s: Session)
    requires AllConsistent(sessions) && m.chat in sessions && s == sessions[m.chat]
    requires s.stepIndex < PhotoIndex && Steps[s.stepIndex].TextStep?
    ensures AllConsistent(OnText(sessions, m, s).sessions)
  {
    if m.text.Some? && m.text.value != "" && Validate(Steps[s.stepIndex].check, m.text.value) {
      OnTextStores(sessions, m, s, m.text.value);
      AdvanceConsistent(s, m.text.value);
    } else {
      OnTextStays(sessions, m, s);
    }
  }

  // ---------------------------------------------------------------- what one message does

  /** With no session, anything but the two menu texts is ignored: nothing changes and nothing is sent. */
  lemma NoSessionInert(sessions: Sessions, m: Message, delivery: Delivery)
    requires m.chat !in sessions && !IsTrigger(m.text)
    ensures OnMessage(sessions, m, delivery) == Reaction(sessions, [])
  {
  }

  /** The start text begins the questionnaire afresh in any state, discarding an earlier session. */
  lemma StartRestarts(sessions: Sessions, m: Message, delivery: Delivery)
    requires m.text == Some(StartTrigger)
    ensures var r := OnMessage(sessions, m, delivery);
      && r.sessions == sessions[m.chat := Session(0, map[])]
      && r.out == [Text(User(m.chat), StartedText), Question(User(m.chat), 0)]
  {
  }

  /** The information text is answered in any state, and changes nothing. */
  lemma InfoAnswered(sessions: Sessions, m: Message, delivery: Delivery)
    requires m.text == Some(InfoTrigger)
    ensures OnMessage(sessions, m, delivery) == Reaction(sessions, [Text(User(m.chat), InfoText)])
  {
  }

  /** Past the menu texts, a chat whose step is past the end is ignored. */
  lemma PastEndIgnored(sessions: Sessions, m: Message, delivery: Delivery)
    requires m.chat in sessions && sessions[m.chat].stepIndex >= |Steps| && !IsTrigger(m.text)
    ensures OnMessage(sessions, m, delivery) == Reaction(sessions, [])
  {
  }

  /** At a text step, a message without text (a photo, say) is ignored. */
  lemma TextlessIgnored(sessions: Sessions, m: Message, delivery: Delivery)
    requires m.chat in sessions && sessions[m.chat].stepIndex < PhotoIndex
    requires m.text.None? || m.text == Some("")
    ensures OnMessage(sessions, m, delivery) == Reaction(sessions, [])
  {
    StepsShape();
  }

  /** An answer that fails the step's validator changes nothing and gets exactly the step's error. */
  lemma InvalidAnswerRejected(sessions: Sessions, m: Message, delivery: Delivery, t: string)
    requires m.chat in sessions && sessions[m.chat].stepIndex < PhotoIndex
    requires m.text == Some(t) && t != "" && !IsTrigger(m.text)
    requires !Validate(Steps[sessions[m.chat].stepIndex].check, t)
    ensures Steps[sessions[m.chat].stepIndex].TextStep?
    ensures OnMessage(sessions, m, delivery) == Reaction(sessions, [Retry(User(m.chat), sessions[m.chat].stepIndex)])
  {
    StepsShape();
  }

  /** The one send a rejected answer gets shows exactly the current step's error text. */
  lemma RejectionWorded(sessions: Sessions, m: Message, delivery: Delivery, t: string)
    requires m.chat in sessions && sessions[m.chat].stepIndex < PhotoIndex
    requires m.text == Some(t) && t != "" && !IsTrigger(m.text)
    requires !Validate(Steps[sessions[m.chat].stepIndex].check, t)
    ensures var out := OnMessage(sessions, m, delivery).out;
      |out| == 1 && Wording(out[0]) == Some(Error(sessions[m.chat].stepIndex))
  {
    InvalidAnswerRejected(sessions, m, delivery, t);
  }

  /** The one send an accepted answer gets shows exactly the next step's question. */
  lemma NextQuestionWorded(sessions: Sessions, m: Message, delivery: Delivery, t: string)
    requires m.chat in sessions && sessions[m.chat].stepIndex < PhotoIndex
    requires m.text == Some(t) && !IsTrigger(m.text)
    requires Validate(Steps[sessions[m.chat].stepIndex].check, t)
    ensures var out := OnMessage(sessions, m, delivery).out;
      |out| == 1 && Wording(out[0]) == Some(Ask(sessions[m.chat].stepIndex + 1))
  {
    ValidAnswerAdvances(sessions, m, delivery, t);
    StepsShape();
  }

  /** A valid answer is stored trimmed under the step's key, the step moves on by one, and the next question is asked. */
  lemma ValidAnswerAdvances(sessions: Sessions, m: Message, delivery: Delivery, t: string)
    requires m.chat in sessions && sessions[m.chat].stepIndex < PhotoIndex
    requires m.text == Some(t) && !IsTrigger(m.text)
    requires Validate(Steps[sessions[m.chat].stepIndex].check, t)
    ensures var s := sessions[m.chat];
      var r := OnMessage(sessions, m, delivery);
      && r.sessions == sessions[m.chat := Session(s.stepIndex + 1, s.data[AnswerKeys[s.stepIndex] := Trim(t)])]
      && r.out == [Question(User(m.chat), s.stepIndex + 1)]
  {
    var s := sessions[m.chat];
    TextStepAt(s.stepIndex);
    BlankRejected(Steps[s.stepIndex].check, "");
    OnMessageAtText(sessions, m, delivery);
    OnTextStores(sessions, m, s, t);
    OnTextAsksNext(sessions, m, s, t);
  }

  /** Past the menu texts, a chat at the photo step is handled by that step. */
  lemma OnMessageAtPhoto(sessions: Sessions, m: Message, delivery: Delivery)
    requires m.chat in sessions && sessions[m.chat].stepIndex == PhotoIndex && !IsTrigger(m.text)
    ensures OnMessage(sessions, m, delivery) == OnPhoto(sessions, m, sessions[m.chat], delivery)
  {
    StepsShape();
  }

  lemma OnTextStays(sessions: Sessions, m: Message, s: Session)
    requires s.stepIndex < PhotoIndex && Steps[s.stepIndex].TextStep?
    requires !(m.text.Some? && m.text.value != "" && Validate(Steps[s.stepIndex].check, m.text.value))
    ensures OnText(sessions, m, s)
         == Reaction(sessions, if m.text.None? || m.text.value == "" then [] else [Retry(User(m.chat), s.stepIndex)])
  {
  }

  /** Past the menu texts, a chat at a text step is handled by that step. */
  lemma OnMessageAtText(sessions: Sessions, m: Message, delivery: Delivery)
    requires m.chat in sessions && sessions[m.chat].stepIndex < PhotoIndex && !IsTrigger(m.text)
    ensures Steps[sessions[m.chat].stepIndex].TextStep?
    ensures OnMessage(sessions, m, delivery) == OnText(sessions, m, sessions[m.chat])
  {
    TextStepAt(sessions[m.chat].stepIndex);
  }

  lemma OnTextStores(sessions: Sessions, m: Message, s: Session, t: string)
    requires s.stepIndex < PhotoIndex && Steps[s.stepIndex].TextStep?
    requires m.text == Some(t) && t != "" && Validate(Steps[s.stepIndex].check, t)
    ensures OnText(sessions, m, s).sessions
         == sessions[m.chat := Session(s.stepIndex + 1, s.data[Steps[s.stepIndex].key := Trim(t)])]
  {
  }

  lemma OnTextAsksNext(sessions: Sessions, m: Message, s: Session, t: string)
    requires s.stepIndex < PhotoIndex && Steps[s.stepIndex].TextStep?
    requires m.text == Some(t) && t != "" && Validate(Steps[s.stepIndex].check, t)
    ensures OnText(sessions, m, s).out == [Question(User(m.chat), s.stepIndex + 1)]
  {
  }

  /** A valid answer is stored, trimmed, at the step's key; the step advances and the next question is asked. */
  lemma OnTextAdvances(sessions: Sessions, m: Message, s: Session, t: string)
    requires s.stepIndex < PhotoIndex && Steps[s.stepIndex].TextStep?
    requires m.text == Some(t) && t != "" && Validate(Steps[s.stepIndex].check, t)
    ensures var s' := Session(s.stepIndex + 1, s.data[Steps[s.stepIndex].key := Trim(t)]);
      OnText(sessions, m, s) == Reaction(sessions[m.chat := s'], [Question(User(m.chat), s.stepIndex + 1)])
  {
    OnTextStores(sessions, m, s, t);
    OnTextAsksNext(sessions, m, s, t);
  }

  /** At the photo step, a message without a photo changes nothing and gets the reminder. */
  lemma PhotoMissingReminded(sessions: Sessions, m: Message, delivery: Delivery)
    requires m.chat in sessions && sessions[m.chat].stepIndex == PhotoIndex
    requires m.photos == [] && !IsTrigger(m.text)
    ensures OnMessage(sessions, m, delivery) == Reaction(sessions, [Text(User(m.chat), PhotoErrorText)])
  {
    StepsShape();
  }

  /**
   * At the photo step, a photo completes the questionnaire: the largest
   * size's file id is stored, the applicant is thanked, the answers go to
   * the administrators, the session ends and the menu is shown.
   */
  lemma PhotoCompletes(sessions: Sessions, m: Message, delivery: Delivery)
    requires m.chat in sessions && sessions[m.chat].stepIndex == PhotoIndex
    requires m.photos != [] && !IsTrigger(m.text)
    ensures var d := sessions[m.chat].data[PhotoFileId := m.photos[|m.photos| - 1]];
      var r := OnMessage(sessions, m, delivery);
      && r.sessions == sessions - {m.chat}
      && r.out == [Text(User(m.chat), ThanksText)] + SendToAdmin(m.chat, d, m.from, delivery) + [Menu(m.chat)]
  {
    StepsShape();
  }

  /**
   * A completed questionnaire reaches the administrators: right after the
   * thanks, unless the submission itself is refused, they get the largest
   * photo captioned with the admin text (or the bare text when the file id
   * is empty), and every one of the nine answers reads back from that text
   * as it was stored, each passing its step's validator.
   */
  lemma ApplicationHandedOver(sessions: Sessions, m: Message, delivery: Delivery)
    requires m.chat in sessions && Consistent(sessions[m.chat]) && sessions[m.chat].stepIndex == PhotoIndex
    requires m.photos != [] && !IsTrigger(m.text)
    ensures var best := m.photos[|m.photos| - 1];
      var s := sessions[m.chat];
      var text := FormatAdminText(s.data[PhotoFileId := best], m.from);
      var submission := if best != "" then Photo(Admin, best, text) else Text(Admin, text);
      var out := OnMessage(sessions, m, delivery).out;
      && |out| >= 3
      && out[0] == Text(User(m.chat), ThanksText)
      && (out[1] == submission <==> delivery != SubmissionFailed)
      && forall k :: 0 <= k < |AnswerKeys| ==>
           && AnswerKeys[k] in s.data
           && ReadAnswer(text, k) == Some(s.data[AnswerKeys[k]])
           && Validate(Steps[k].check, s.data[AnswerKeys[k]])
  {
    PhotoCompletes(sessions, m, delivery);
    HandOver(sessions[m.chat], m.chat, m.photos[|m.photos| - 1], m.from, delivery, OnMessage(sessions, m, delivery).out);
  }

  /** ApplicationHandedOver for the sends of a completed questionnaire, whatever produced them. */
  lemma HandOver(s: Session, chat: ChatId, best: string, from: Option<Sender>, delivery: Delivery, out: seq<Output>)
    requires Consistent(s) && s.stepIndex == PhotoIndex
    requires out == [Text(User(chat), ThanksText)] + SendToAdmin(chat, s.data[PhotoFileId := best], from, delivery) + [Menu(chat)]
    ensures var text := FormatAdminText(s.data[PhotoFileId := best], from);
      var submission := if best != "" then Photo(Admin, best, text) else Text(Admin, text);
      && |out| >= 3
      && out[0] == Text(User(chat), ThanksText)
      && (out[1] == submission <==> delivery != SubmissionFailed)
      && forall k :: 0 <= k < |AnswerKeys| ==>
           && AnswerKeys[k] in s.data
           && ReadAnswer(text, k) == Some(s.data[AnswerKeys[k]])
           && Validate(Steps[k].check, s.data[AnswerKeys[k]])
  {
    var sent := SendToAdmin(chat, s.data[PhotoFileId := best], from, delivery);
    assert out[1] == sent[0];
    PhotoSubmission(chat, s.data, best, from, delivery);
    StoredAnswersReadBack(s.data, best, from);
  }
}
