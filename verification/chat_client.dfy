/** The request the chat page sends to open a conversation, read the way the
    message controller reads it. The page names the field `receiverId`; the
    controller destructures `recieverId`. */
module ChatClient {
  import opened Wrappers
  import opened Http
  import opened MessageController
  import ChatDirectory

  /** A JSON request body whose fields are all strings. */
  type Body = map<string, string>

  /** The body field the controller reads, or `undefined`. */
  function Field(body: Body, key: string): (v: Option<string>)
    ensures v.Some? <==> key in body
    ensures v.Some? ==> v.value == body[key]
  {
    if key in body then Some(body[key]) else None
  }

  /** The field `sendMessage` takes the receiver from. */
  const ReceiverField := "recieverId"

  /** `createChat(id)` as the page writes it: the receiver travels under
      `receiverId`, which the controller never reads. */
  function CreateChatBody(id: UserId): (body: Body)
    ensures Field(body, ReceiverField).None?
    ensures Field(body, "message") == Some("hii")
  {
    map["receiverId" := id, "message" := "hii"]
  }

  /** `createChat(id)` with the field named as the controller expects it. */
  function CreateChatBodyFixed(id: UserId): (body: Body)
    ensures Field(body, ReceiverField) == Some(id)
    ensures Field(body, "message") == Some("hii")
  {
    map[ReceiverField := id, "message" := "hii"]
  }

  /** As written, every chat the page tries to open is refused with 400 and
      nothing is stored or pushed. */
  lemma CreateChatAsWrittenIsRejected(st: Store, presence: Presence, me: UserId, id: UserId)
    ensures
      var body := CreateChatBody(id);
      SendMessage(st, presence, me, Field(body, ReceiverField), body["message"])
        == Step(Fail(400, MissingReceiverMessage), st)
  {
  }

  /** With the field renamed, opening a chat with any user stores the greeting
      with status 201 and it becomes the last message the two see. */
  lemma CreateChatFixedIsSent(st: Store, presence: Presence, me: UserId, id: UserId)
    requires ChatDirectory.Valid(st) && id != ""
    ensures
      var body := CreateChatBodyFixed(id);
      var r := SendMessage(st, presence, me, Field(body, ReceiverField), body["message"]);
      && r.reply.Ok? && r.reply.status == 201 && r.reply.body.text == "hii"
      && ChatDirectory.HistoryOf(r.state, id, me) == ChatDirectory.HistoryOf(st, me, id) + [r.reply.body]
  {
    ChatDirectory.SendAppendsToHistory(st, presence, me, id, "hii");
  }
}
