/** The message controller over an in-memory chat store: sending a message
    (resolving or creating the two-person chat, storing the message, updating
    the chat's latest-message summary, pushing to an online receiver), reading
    a chat's messages, and listing the requester's chats. */
module MessageController {
  import opened Wrappers
  import opened Http
  import opened Js

  /** Database ids; fresh ones come from a counter in the store. */
  type ObjectId = nat

  /** A live connection id. The socket library never hands out an empty one,
      so a presence entry is always truthy. */
  type SocketId = s: string | s != "" witness "socket"

  /** Which user is reachable on which live connection (`getReciverSocketId`). */
  type Presence = map<UserId, SocketId>

  /** The denormalised summary a chat carries for list views. */
  datatype Latest = Latest(text: string, sender: UserId)

  datatype Chat = Chat(id: ObjectId, users: seq<UserId>, latestMessage: Latest)

  datatype Message = Message(id: ObjectId, chatId: ObjectId, sender: UserId, text: string)

  /** An `io.to(socket).emit(event, payload)` that went out. */
  datatype Push = Push(socket: SocketId, event: string, payload: Message)

  /** The chats and messages collections in natural order, the next unused
      id, and every push sent so far. */
  datatype Store = Store(chats: seq<Chat>, messages: seq<Message>, nextId: ObjectId, pushed: seq<Push>)

  const MissingReceiverMessage := "Please give receiver id"
  const NoChatMessage := "No chat with user"
  const NewMessageEvent := "newMessage"

  /** Both ids are among the chat's users (`users: {$all: [a, b]}`). */
  predicate HasBoth(c: Chat, a: UserId, b: UserId) {
    a in c.users && b in c.users
  }

  /** `Chat.findOne({users: {$all: [a, b]}})`: the first chat whose users
      include both ids. */
  function FindChat(chats: seq<Chat>, a: UserId, b: UserId): (r: Option<nat>)
    ensures r.None? <==> forall i :: 0 <= i < |chats| ==> !HasBoth(chats[i], a, b)
    ensures r.Some? ==> r.value < |chats| && HasBoth(chats[r.value], a, b)
    ensures r.Some? ==> forall j :: 0 <= j < r.value ==> !HasBoth(chats[j], a, b)
  {
    if |chats| == 0 then None
    else if HasBoth(chats[0], a, b) then Some(0)
    else match FindChat(chats[1..], a, b)
      case None => None
      case Some(k) => Some(k + 1)
  }

  /** `Messages.find({chatId})`: the stored messages of one chat, in store order. */
  function MessagesOf(messages: seq<Message>, chatId: ObjectId): (r: seq<Message>)
    ensures |r| <= |messages|
    ensures forall k :: 0 <= k < |r| ==> r[k].chatId == chatId
  {
    if |messages| == 0 then []
    else
      var n := |messages| - 1;
      MessagesOf(messages[..n], chatId) + (if messages[n].chatId == chatId then [messages[n]] else [])
  }

  /** The query returns only stored messages, and every stored message of the
      chat. */
  lemma {:induction false} MessagesOfExactly(messages: seq<Message>, chatId: ObjectId)
    ensures forall k :: 0 <= k < |MessagesOf(messages, chatId)| ==> MessagesOf(messages, chatId)[k] in messages
    ensures forall i :: 0 <= i < |messages| && messages[i].chatId == chatId ==> messages[i] in MessagesOf(messages, chatId)
  {
    if |messages| > 0 {
      var n := |messages| - 1;
      var init := messages[..n];
      MessagesOfExactly(init, chatId);
      var rest := MessagesOf(init, chatId);
      var r := MessagesOf(messages, chatId);
      assert r == rest + (if messages[n].chatId == chatId then [messages[n]] else []);
      forall k | 0 <= k < |r| ensures r[k] in messages {
        if k < |rest| {
          assert r[k] == rest[k] && rest[k] in init;
        }
      }
      forall i | 0 <= i < |messages| && messages[i].chatId == chatId ensures messages[i] in r {
        if i < n {
          assert messages[i] == init[i];
        }
      }
    }
  }

  /** Where a send lands: an existing chat with both ids, or a new one appended
      with users `[sender, receiver]` and the next fresh id. Returns the chats,
      the position of the resolved chat and the next unused id. */
  function ResolveChat(st: Store, sender: UserId, receiver: UserId, text: string): (r: (seq<Chat>, nat, ObjectId))
    ensures r.1 < |r.0|
    ensures HasBoth(r.0[r.1], sender, receiver)
    ensures FindChat(st.chats, sender, receiver).Some? ==>
      r == (st.chats, FindChat(st.chats, sender, receiver).value, st.nextId)
    ensures FindChat(st.chats, sender, receiver).None? ==>
      && r.1 == |st.chats| && |r.0| == |st.chats| + 1
      && r.0[..|st.chats|] == st.chats
      && r.0[r.1] == Chat(st.nextId, [sender, receiver], Latest(text, sender))
      && r.2 == st.nextId + 1
  {
    match FindChat(st.chats, sender, receiver)
    case Some(i) => (st.chats, i, st.nextId)
    case None =>
      var chat := Chat(st.nextId, [sender, receiver], Latest(text, sender));
      (st.chats + [chat], |st.chats|, st.nextId + 1)
  }

  /** `sendMessage`: a falsy `recieverId` answers 400 and changes nothing.
      Otherwise the chat is resolved (or created), exactly one message is
      appended to the log, the resolved chat's summary is overwritten, a push
      goes to the receiver exactly when they have a live connection, and the
      new message comes back with status 201. */
  function SendMessage(st: Store, presence: Presence, sender: UserId,
                       recieverId: Option<string>, text: string): (r: Step<Message, Store>)
    ensures !Truthy(recieverId) ==> r == Step(Fail(400, MissingReceiverMessage), st)
    ensures Truthy(recieverId) ==> r.reply.Ok? && r.reply.status == 201
    ensures Truthy(recieverId) ==>
      var receiver := recieverId.value;
      var m := r.reply.body;
      && r.state.messages == st.messages + [m]
      && m.sender == sender && m.text == text
      && st.nextId <= m.id < r.state.nextId
      && |st.chats| <= |r.state.chats| <= |st.chats| + 1
      && (exists k :: 0 <= k < |r.state.chats| && r.state.chats[k].id == m.chatId
                      && HasBoth(r.state.chats[k], sender, receiver)
                      && r.state.chats[k].latestMessage == Latest(text, sender))
      && (forall k :: 0 <= k < |st.chats| ==>
            && r.state.chats[k].id == st.chats[k].id
            && r.state.chats[k].users == st.chats[k].users
            && (r.state.chats[k].id != m.chatId ==> r.state.chats[k] == st.chats[k]))
      && (receiver in presence ==> r.state.pushed == st.pushed + [Push(presence[receiver], NewMessageEvent, m)])
      && (receiver !in presence ==> r.state.pushed == st.pushed)
    ensures Truthy(recieverId) && FindChat(st.chats, sender, recieverId.value).Some? ==>
      && |r.state.chats| == |st.chats|
      && r.reply.body.chatId == st.chats[FindChat(st.chats, sender, recieverId.value).value].id
    ensures Truthy(recieverId) && FindChat(st.chats, sender, recieverId.value).None? ==>
      && |r.state.chats| == |st.chats| + 1
      && r.state.chats[|st.chats|].users == [sender, recieverId.value]
      && r.reply.body.chatId == r.state.chats[|st.chats|].id
  {
    if !Truthy(recieverId) then Step(Fail(400, MissingReceiverMessage), st)
    else
      var receiver := recieverId.value;
      var (chats, i, next) := ResolveChat(st, sender, receiver, text);
      var newMessage := Message(next, chats[i].id, sender, text);
      var chats' := chats[i := chats[i].(latestMessage := Latest(text, sender))];
      var pushed := if receiver in presence then st.pushed + [Push(presence[receiver], NewMessageEvent, newMessage)]
                    else st.pushed;
      assert chats'[i].id == newMessage.chatId && HasBoth(chats'[i], sender, receiver);
      Step(Ok(201, newMessage), Store(chats', st.messages + [newMessage], next + 1, pushed))
  }

  /** `getAllMessages`: 400 when no chat holds both ids, otherwise every
      stored message of the first such chat. */
  function GetAllMessages(st: Store, me: UserId, id: UserId): (r: Reply<seq<Message>>)
    ensures r.Fail? <==> forall i :: 0 <= i < |st.chats| ==> !HasBoth(st.chats[i], me, id)
    ensures r.Fail? ==> r == Fail(400, NoChatMessage)
    ensures r.Ok? ==> r.status == 200
    ensures r.Ok? ==>
      exists i ::
        && 0 <= i < |st.chats| && HasBoth(st.chats[i], me, id)
        && (forall k :: 0 <= k < |r.body| ==> r.body[k].chatId == st.chats[i].id && r.body[k] in st.messages)
        && (forall j :: 0 <= j < |st.messages| && st.messages[j].chatId == st.chats[i].id ==> st.messages[j] in r.body)
    ensures FindChat(st.chats, me, id).Some? ==>
      r == Ok(200, MessagesOf(st.messages, st.chats[FindChat(st.chats, me, id).value].id))
  {
    match FindChat(st.chats, me, id)
    case None => Fail(400, NoChatMessage)
    case Some(i) =>
      MessagesOfExactly(st.messages, st.chats[i].id);
      Ok(200, MessagesOf(st.messages, st.chats[i].id))
  }

  /** The chats whose users include `me`, each with `me` filtered out of its
      users, in store order. */
  function ChatsOf(chats: seq<Chat>, me: UserId): (r: seq<Chat>)
    ensures |r| <= |chats|
    ensures forall k :: 0 <= k < |r| ==> me !in r[k].users
  {
    if |chats| == 0 then []
    else
      var n := |chats| - 1;
      var rest := ChatsOf(chats[..n], me);
      if me in chats[n].users then rest + [chats[n].(users := Without(chats[n].users, me))] else rest
  }

  /** `c` is a stored chat that holds `me`, with `me` filtered out. */
  ghost predicate StrippedFrom(c: Chat, chats: seq<Chat>, me: UserId)
  {
    exists i ::
      && 0 <= i < |chats| && me in chats[i].users
      && c == chats[i].(users := Without(chats[i].users, me))
  }

  /** The requester's chat list holds exactly the stored chats that include
      the requester, with the requester filtered out: every listed chat comes
      from such a chat, and every such chat is listed. */
  lemma {:induction false} ChatsOfExactly(chats: seq<Chat>, me: UserId)
    ensures forall k :: 0 <= k < |ChatsOf(chats, me)| ==>
      StrippedFrom(ChatsOf(chats, me)[k], chats, me)
    ensures forall i :: 0 <= i < |chats| && me in chats[i].users ==>
      chats[i].(users := Without(chats[i].users, me)) in ChatsOf(chats, me)
  {
    if |chats| > 0 {
      var n := |chats| - 1;
      var init := chats[..n];
      ChatsOfExactly(init, me);
      var rest := ChatsOf(init, me);
      var r := ChatsOf(chats, me);
      assert forall i :: 0 <= i < n ==> init[i] == chats[i];
      assert r == if me in chats[n].users then rest + [chats[n].(users := Without(chats[n].users, me))] else rest;
      forall k | 0 <= k < |r|
        ensures StrippedFrom(r[k], chats, me)
      {
        if k < |rest| {
          assert r[k] == rest[k];
          assert StrippedFrom(rest[k], init, me);
          var i :| 0 <= i < n && me in init[i].users && rest[k] == init[i].(users := Without(init[i].users, me));
          assert chats[i] == init[i];
        } else {
          assert r[k] == chats[n].(users := Without(chats[n].users, me));
        }
      }
      forall i | 0 <= i < |chats| && me in chats[i].users
        ensures chats[i].(users := Without(chats[i].users, me)) in r
      {
        if i < n {
          assert init[i] == chats[i];
          assert chats[i].(users := Without(chats[i].users, me)) in rest;
        }
      }
    } else {
      assert ChatsOf(chats, me) == [];
    }
  }

  /** `getAllchats`: find the requester's chats, then filter the requester out
      of each one's users. */
  method GetAllChats(st: Store, me: UserId) returns (r: seq<Chat>)
    ensures r == ChatsOf(st.chats, me)
  {
    r := [];
    var n := 0;
    while n < |st.chats|
      invariant n <= |st.chats|
      invariant r == ChatsOf(st.chats[..n], me)
    {
      var e := st.chats[n];
      assert st.chats[..n + 1][..n] == st.chats[..n];
      if me in e.users {
        r := r + [e.(users := Without(e.users, me))];
      }
      n := n + 1;
    }
    assert st.chats[..n] == st.chats;
  }
}
