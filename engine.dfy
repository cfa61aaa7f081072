/**
 * The bot as index.js runs it: one `sessions` Map, updated in place by the
 * command handlers and the main message handler (index.js:27, 113-142,
 * 208-215, 225-284). Each method is proved to do what the matching function
 * of `Conversation` says, and each method that changes the map keeps every
 * session consistent.
 */
module Engine {
  import opened Optional
  import opened Strings
  import opened Schema
  import opened Outbox
  import opened Admin
  import Conversation

  class Bot {
    /** Each chat's questionnaire in progress, by chat id. */
    var sessions: Conversation.Sessions

    /** Every session is at a step of the schema and holds exactly the valid answers before it. */
    ghost predicate Valid()
      reads this
    {
      Conversation.AllConsistent(sessions)
    }

    /** The bot starts with no questionnaire in progress. */
    constructor ()
      ensures sessions == map[] && Valid()
    {
      sessions := map[];
    }

    /** resetSession: drops the chat's session, if it has one. */
    method ResetSession(chat: ChatId)
      requires Valid()
      modifies this
      ensures Valid()
      ensures sessions == Conversation.ResetSession(old(sessions), chat)
    {
      sessions := sessions - {chat};
    }

    /**
     * askNext: the question of the chat's current step, or nothing without
     * a session. index.js reads the step without a bound check, so a step
     * past the end is excluded here.
     */
    method AskNext(chat: ChatId) returns (out: seq<Output>)
      requires chat in sessions ==> sessions[chat].stepIndex < |Steps|
      ensures out == Conversation.AskNext(sessions, chat)
    {
      if chat !in sessions {
        return [];
      }
      var session := sessions[chat];
      out := [Question(User(chat), session.stepIndex)];
    }

    /** startForm: a fresh session at the first step, then the greeting and the first question. */
    method StartForm(chat: ChatId) returns (out: seq<Output>)
      requires Valid()
      modifies this
      ensures Valid()
      ensures Conversation.Reaction(sessions, out) == Conversation.StartForm(old(sessions), chat)
    {
      sessions := sessions[chat := Conversation.Session(0, map[])];
      out := [Text(User(chat), Conversation.StartedText)];
      var question := AskNext(chat);
      out := out + question;
    }

    /** The `/start` command. */
    method HandleStart(chat: ChatId) returns (out: seq<Output>)
      ensures Conversation.Reaction(sessions, out) == Conversation.OnStart(sessions, chat)
    {
      out := [Conversation.Menu(chat)];
    }

    /** The `/cancel` command. */
    method HandleCancel(chat: ChatId) returns (out: seq<Output>)
      requires Valid()
      modifies this
      ensures Valid()
      ensures Conversation.Reaction(sessions, out) == Conversation.OnCancel(old(sessions), chat)
    {
      ResetSession(chat);
      out := [Text(User(chat), Conversation.CancelledText), Conversation.Menu(chat)];
    }

    /** The photo step of the main handler, for the chat's current session `session`. */
    method HandlePhoto(m: Conversation.Message, session: Conversation.Session, delivery: Delivery) returns (out: seq<Output>)
      requires Valid() && m.chat in sessions && session == sessions[m.chat] && session.stepIndex == PhotoIndex
      modifies this
      ensures Valid()
      ensures Conversation.Reaction(sessions, out) == Conversation.OnPhoto(old(sessions), m, session, delivery)
    {
      var chat := m.chat;
      if m.photos == [] {
        return [Text(User(chat), Conversation.PhotoErrorText)];
      }
      var best := m.photos[|m.photos| - 1];
      var data := session.data[PhotoFileId := best];
      out := [Text(User(chat), Conversation.ThanksText)];
      out := out + SendToAdmin(chat, data, m.from, delivery);
      ResetSession(chat);
      out := out + [Conversation.Menu(chat)];
    }

    /** A text step of the main handler, for the chat's current session `session`. */
    method HandleText(m: Conversation.Message, session: Conversation.Session) returns (out: seq<Output>)
      requires Valid() && m.chat in sessions && session == sessions[m.chat]
      requires session.stepIndex < PhotoIndex && Steps[session.stepIndex].TextStep?
      modifies this
      ensures Valid()
      ensures Conversation.Reaction(sessions, out) == Conversation.OnText(old(sessions), m, session)
    {
      Conversation.OnTextConsistent(sessions, m, session);
      var chat := m.chat;
      if m.text.None? || m.text.value == "" {
        Conversation.OnTextStays(sessions, m, session);
        return [];
      }
      var text := m.text.value;
      var step := Steps[session.stepIndex];
      if !Validate(step.check, text) {
        Conversation.OnTextStays(sessions, m, session);
        return [Retry(User(chat), session.stepIndex)];
      }
      Conversation.OnTextAdvances(sessions, m, session, text);
      var stored := session.(data := session.data[step.key := Trim(text)]);
      stored := stored.(stepIndex := stored.stepIndex + 1);
      assert stored == Conversation.Session(session.stepIndex + 1, session.data[step.key := Trim(text)]);
      sessions := sessions[chat := stored];
      out := AskNext(chat);
    }

    /**
     * The main message handler: the menu texts first, then the chat's
     * current step, if it has a session.
     */
    method HandleMessage(m: Conversation.Message, delivery: Delivery) returns (out: seq<Output>)
      requires Valid()
      modifies this
      ensures Valid()
      ensures Conversation.Reaction(sessions, out) == Conversation.OnMessage(old(sessions), m, delivery)
    {
      var before := sessions;
      Conversation.OnMessageConsistent(before, m, delivery);
      var chat := m.chat;
      if m.text == Some(Conversation.StartTrigger) {
        Conversation.StartRestarts(before, m, delivery);
        out := StartForm(chat);
        return;
      }
      if m.text == Some(Conversation.InfoTrigger) {
        Conversation.InfoAnswered(before, m, delivery);
        return [Text(User(chat), Conversation.InfoText)];
      }
      if chat !in sessions {
        Conversation.NoSessionInert(before, m, delivery);
        return [];
      }
      var session := sessions[chat];
      if session.stepIndex >= |Steps| {
        return [];
      }
      PhotoStepAt(session.stepIndex);
      if Steps[session.stepIndex].PhotoStep? {
        Conversation.OnMessageAtPhoto(before, m, delivery);
        out := HandlePhoto(m, session, delivery);
      } else {
        Conversation.OnMessageAtText(before, m, delivery);
        out := HandleText(m, session);
      }
    }
  }
}
