/**
 * What the bot sends. The Telegram transport is not modelled: every send
 * the handlers make is recorded, in order, as an Output; a send that fails
 * is not recorded, and whether it fails is an input of the handler.
 */
module Outbox {
  import opened Optional

  /** Telegram chat identifiers are integers (negative for groups). */
  type ChatId = int

  datatype Recipient =
    | User(chat: ChatId)       // a chat the bot talks to, by its numeric id
    | Admin                    // the configured ADMIN_CHAT_ID
    | ChatNamed(id: string)    // a chat id given as a string, as the callback handler passes it on

  datatype Output =
    | Text(to: Recipient, body: string)                              // bot.sendMessage
    | Question(to: Recipient, step: nat)                             // bot.sendMessage of the question of a step (Conversation.Wording)
    | Retry(to: Recipient, step: nat)                                // bot.sendMessage of the error text of a step (Conversation.Wording)
    | Photo(to: Recipient, fileId: string, caption: string)          // bot.sendPhoto with a caption
    | Buttons(to: Recipient, body: string, callbacks: seq<string>)   // bot.sendMessage with inline buttons, by callback_data
    | Ack(notice: Option<string>)                                    // bot.answerCallbackQuery, with its optional text
}
