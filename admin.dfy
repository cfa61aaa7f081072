/**
 * The hand-over to the administrators (`sendToAdmin`, index.js:171-205)
 * and the relay of their decision back to the applicant (the
 * `callback_query` handler, index.js:287-305).
 */
module Admin {
  import opened Optional
  import opened Strings
  import opened Schema
  import opened Outbox
  import opened AdminText

  // ---------------------------------------------------------------- sending a questionnaire to the administrators

  /**
   * How far the sends to the administrators' chat get: both go through, the
   * questionnaire itself is refused, or it goes through and the message with
   * the decision buttons is refused.
   */
  datatype Delivery = Delivered | SubmissionFailed | ControlsFailed

  const ControlsText: string := "👇 <b>Admin amali:</b>"

  const NotDeliveredText: string :=
    "❗️Anketa admin guruhga yuborilmadi.\nADMIN_CHAT_ID yoki bot guruh ruxsatlarini tekshiring."

  const AcceptAction: string := "accept"
  const RejectAction: string := "reject"

  /** A button's callback data: the action, a colon, the applicant's chat id in decimal. */
  function EncodeCallback(action: string, chat: ChatId): string {
    action + ":" + IntToDecimal(chat)
  }

  /** The questionnaire as the administrators get it: the photo captioned with the admin text, or the bare text when no photo id is stored. */
  function Submission(d: Answers, from: Option<Sender>): (o: Output)
    ensures o.Photo? <==> Answer(d, PhotoFileId) != ""
    ensures o.Photo? ==> o.fileId == Answer(d, PhotoFileId) && o.caption == FormatAdminText(d, from)
    ensures !o.Photo? ==> o == Text(Admin, FormatAdminText(d, from))
    ensures !o.Ack? && o.to == Admin
  {
    var text := FormatAdminText(d, from);
    if Answer(d, PhotoFileId) != "" then Photo(Admin, Answer(d, PhotoFileId), text) else Text(Admin, text)
  }

  /** The message carrying the accept and reject buttons for the applicant in `chat`. */
  function Controls(chat: ChatId): Output {
    Buttons(Admin, ControlsText, [EncodeCallback(AcceptAction, chat), EncodeCallback(RejectAction, chat)])
  }

  /**
   * What sendToAdmin sends, in order: the submission, then the controls;
   * the first refused send ends the attempt and the applicant is told.
   */
  function SendToAdmin(chat: ChatId, d: Answers, from: Option<Sender>, delivery: Delivery): (out: seq<Output>)
    ensures |out| == (if delivery == SubmissionFailed then 1 else 2)
    ensures Submission(d, from) in out <==> delivery != SubmissionFailed
    ensures Controls(chat) in out <==> delivery == Delivered
    ensures Text(User(chat), NotDeliveredText) in out <==> delivery != Delivered
    ensures delivery != SubmissionFailed ==> out[0] == Submission(d, from)
    ensures forall i :: 0 <= i < |out| ==> !out[i].Ack? && (out[i].to == User(chat) || out[i].to == Admin)
  {
    match delivery
    case Delivered => [Submission(d, from), Controls(chat)]
    case SubmissionFailed => [Text(User(chat), NotDeliveredText)]
    case ControlsFailed => [Submission(d, from), Text(User(chat), NotDeliveredText)]
  }

  /** Whichever form the submission takes, the administrators can read every answer back out of its text. */
  lemma SubmissionReadsBack(d: Answers, from: Option<Sender>)
    ensures var o := Submission(d, from);
      var text := if o.Photo? then o.caption else o.body;
      forall k :: 0 <= k < |AnswerKeys| ==> ReadAnswer(text, k) == Some(Answer(d, AnswerKeys[k]))
  {
    AdminTextRoundTrip(d, from);
  }

  /**
   * The questionnaire with the photo's file id added: the first send is the
   * photo captioned with the admin text (the bare text for an empty id),
   * unless the submission is refused.
   */
  lemma PhotoSubmission(chat: ChatId, d: Answers, best: string, from: Option<Sender>, delivery: Delivery)
    ensures var text := FormatAdminText(d[PhotoFileId := best], from);
      var sent := SendToAdmin(chat, d[PhotoFileId := best], from, delivery);
      sent[0] == (if best != "" then Photo(Admin, best, text) else Text(Admin, text)) <==> delivery != SubmissionFailed
  {
    assert Answer(d[PhotoFileId := best], PhotoFileId) == best;
  }

  /** Adding the photo's file id hides no answer: all nine read back from the admin text as stored. */
  lemma StoredAnswersReadBack(d: Answers, best: string, from: Option<Sender>)
    requires forall k :: 0 <= k < |AnswerKeys| ==> AnswerKeys[k] in d
    ensures forall k :: 0 <= k < |AnswerKeys| ==>
      ReadAnswer(FormatAdminText(d[PhotoFileId := best], from), k) == Some(d[AnswerKeys[k]])
  {
    AdminTextRoundTrip(d[PhotoFileId := best], from);
    forall k | 0 <= k < |AnswerKeys|
      ensures Answer(d[PhotoFileId := best], AnswerKeys[k]) == d[AnswerKeys[k]]
    {
      AnswerBesidePhoto(d, best, k);
    }
  }

  lemma AnswerBesidePhoto(d: Answers, best: string, k: nat)
    requires k < |AnswerKeys| && AnswerKeys[k] in d
    ensures Answer(d[PhotoFileId := best], AnswerKeys[k]) == d[AnswerKeys[k]]
  {
    StepsShape();
    assert KeyIndex(AnswerKeys[k]) != KeyIndex(PhotoFileId);
  }

  // ---------------------------------------------------------------- relaying the administrators' decision

  /** A callback's two leading fields: what to do, and to whom, as the chat id text. */
  datatype Decision = Decision(action: string, target: string)

  /** `(q.data || "").split(":")`, keeping the first two fields when both are non-empty. */
  function ParseCallback(data: Option<string>): (r: Option<Decision>)
    ensures r.Some? ==> r.value.action != "" && r.value.target != ""
    ensures r.Some? ==> ':' !in r.value.action && ':' !in r.value.target
  {
    var parts := Split(data.GetOr(""), ':');
    if parts[0] != "" && |parts| >= 2 && parts[1] != "" then Some(Decision(parts[0], parts[1])) else None
  }

  const AcceptedText: string := "✅ Anketangiz ko‘rib chiqildi. Siz bilan tez orada bog‘lanamiz!"
  const RejectedText: string := "❌ Anketangiz ko‘rib chiqildi. Afsus, hozircha rad etildi."
  const DoneNotice: string := "Bajarildi ✅"
  const FailedNotice: string := "Userga yuborib bo‘lmadi"

  /** The message to the applicant for an action; "" (send nothing) for an action the bot does not know. */
  function DecisionText(action: string): (m: string)
    ensures m != "" <==> action == AcceptAction || action == RejectAction
  {
    if action == AcceptAction then AcceptedText
    else if action == RejectAction then RejectedText
    else ""
  }

  /** Whether a button press carries a decision the applicant is to be told about. */
  predicate Relays(data: Option<string>) {
    var r := ParseCallback(data);
    r.Some? && DecisionText(r.value.action) != ""
  }

  /**
   * The sends of the callback handler for a press whose callback data is
   * `data`; `relayed` says whether the message to the applicant goes through.
   * The press is always acknowledged, once, last.
   */
  function OnCallback(data: Option<string>, relayed: bool): (out: seq<Output>)
    ensures 1 <= |out| <= 2 && out[|out| - 1].Ack?
    ensures |out| == 2 ==> !out[0].Ack?
    ensures |out| == 2 <==> Relays(data) && relayed
    ensures |out| == 2 ==> out[0] == Text(ChatNamed(ParseCallback(data).value.target), DecisionText(ParseCallback(data).value.action))
    ensures out[|out| - 1] == Ack(
      if ParseCallback(data).None? then None
      else if Relays(data) && !relayed then Some(FailedNotice)
      else Some(DoneNotice))
  {
    match ParseCallback(data)
    case None => [Ack(None)]
    case Some(Decision(action, target)) =>
      var m := DecisionText(action);
      if m == "" then [Ack(Some(DoneNotice))]
      else if relayed then [Text(ChatNamed(target), m), Ack(Some(DoneNotice))]
      else [Ack(Some(FailedNotice))]
  }

  /**
   * Callback data round trip: an action without a colon, encoded with a
   * chat id, parses back to that action and to a target that reads back as
   * the same chat id.
   */
  lemma CallbackRoundTrip(action: string, chat: ChatId)
    requires action != "" && ':' !in action
    ensures ParseCallback(Some(EncodeCallback(action, chat))) == Some(Decision(action, IntToDecimal(chat)))
    ensures ParseDecimal(IntToDecimal(chat)) == Some(chat)
  {
    var id := IntToDecimal(chat);
    forall i | 0 <= i < |id|
      ensures id[i] != ':'
    {
    }
    SplitTwo(action, id, ':');
    assert EncodeCallback(action, chat) == action + [':'] + id;
    ParseRendersBack(chat);
  }

  /** The two buttons the administrators get decode to accept and to reject, both aimed at the applicant's chat. */
  lemma ControlsDecode(chat: ChatId)
    ensures var cb := Controls(chat).callbacks;
      && |cb| == 2
      && ParseCallback(Some(cb[0])) == Some(Decision(AcceptAction, IntToDecimal(chat)))
      && ParseCallback(Some(cb[1])) == Some(Decision(RejectAction, IntToDecimal(chat)))
  {
    CallbackRoundTrip(AcceptAction, chat);
    CallbackRoundTrip(RejectAction, chat);
  }

  /**
   * Pressing accept or reject tells the applicant's chat the matching
   * verdict and acknowledges the press, or, when the message to the
   * applicant fails, only acknowledges it with the failure notice.
   */
  lemma DecisionRelayed(chat: ChatId, accept: bool, relayed: bool)
    ensures var action := if accept then AcceptAction else RejectAction;
      OnCallback(Some(EncodeCallback(action, chat)), relayed)
      == if relayed then [Text(ChatNamed(IntToDecimal(chat)), if accept then AcceptedText else RejectedText), Ack(Some(DoneNotice))]
         else [Ack(Some(FailedNotice))]
  {
    CallbackRoundTrip(if accept then AcceptAction else RejectAction, chat);
  }

  /** A press whose action the bot does not know sends nothing to anyone and is acknowledged as done. */
  lemma UnknownActionSilent(data: Option<string>, relayed: bool)
    requires ParseCallback(data).Some?
    requires ParseCallback(data).value.action != AcceptAction && ParseCallback(data).value.action != RejectAction
    ensures OnCallback(data, relayed) == [Ack(Some(DoneNotice))]
  {
  }

  /** Callback data that lacks an action or a target is acknowledged without a notice. */
  lemma MalformedOnlyAnswered(data: Option<string>, relayed: bool)
    requires data.None? || ':' !in data.value
    ensures OnCallback(data, relayed) == [Ack(None)]
  {
    if data.Some? {
      SplitOne(data.value, ':');
    } else {
      SplitOne("", ':');
    }
  }

  /** Callback data with nothing before its first colon has no action: the press is only acknowledged. */
  lemma EmptyActionOnlyAnswered(rest: string, relayed: bool)
    ensures OnCallback(Some(":" + rest), relayed) == [Ack(None)]
  {
    SplitSeparator(rest, ':');
  }

  /**
   * Callback data with nothing between its first colon and the next one (or
   * the end) has no target: the press is only acknowledged.
   */
  lemma EmptyTargetOnlyAnswered(action: string, rest: string, relayed: bool)
    requires ':' !in action && (rest == "" || rest[0] == ':')
    ensures OnCallback(Some(action + ":" + rest), relayed) == [Ack(None)]
  {
    assert action + ":" + rest == action + ([':'] + rest);
    SplitPrefix(action, [':'] + rest, ':');
    SplitSeparator(rest, ':');
    if rest == "" {
      SplitOne(rest, ':');
    } else {
      assert rest == [':'] + rest[1..];
      SplitSeparator(rest[1..], ':');
    }
  }
}
