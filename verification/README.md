# Social app backend: follow graph and direct messages

A Dafny model of the two backend controllers of a small social-media app
that hold real state-changing logic.

- **User controller.** `followAndUnfollowUser` toggles an edge of the follow
  graph. Every user document keeps two id lists, `followers` and
  `followings`. A missing target answers 404, following oneself answers 400,
  and otherwise the requester is unfollowed (one entry spliced out of each
  list at its `indexOf` position) or followed (the other id pushed onto each
  list). Two neighbours are modelled as well: the profile update's
  "overwrite the name only when a truthy name is given" rule, and the user
  search, which never returns the requester.
- **Message controller.** `sendMessage` rejects a falsy `recieverId` with
  400. Otherwise it resolves the chat whose users contain both ids (creating
  `[sender, receiver]` when there is none), stores one message, overwrites
  the chat's latest-message summary, and pushes a `newMessage` event when
  the receiver has a live socket. `getAllMessages` returns the messages of
  the chat the two users share, or 400 when they share none.
  `getAllchats` lists the requester's chats with the requester filtered
  out of each chat's users.

Each database collection is a sequence in natural order. The chat store
draws fresh ids from a counter and keeps a log of the pushes sent. The
socket registry is a map from user id to socket id. Every handler is a pure
function from the store and the request to the reply and the new store.

Modules:
- `Wrappers`: `Option`.
- `Http`: replies and handler steps.
- `Js`: the JavaScript built-ins the controllers use (`indexOf`,
  `splice(start, 1)`, `filter`, truthiness).
- `UserController` and `FollowGraph`: the user controller and the follow
  graph invariant.
- `MessageController` and `ChatDirectory`: the message controller and the
  chat store invariant.
- `ChatClient`: the request the chat page sends.

The follow graph invariant is `FollowGraph.WellFormed`: ids are unique,
"A is in B's followers exactly when B is in A's followings", and no list
holds an id twice. The last part is needed. If a list held an id twice,
one splice would remove only one copy and break the symmetry. The follow
branch checks only the target's followers, not the requester's followings,
so on an out-of-step graph it can push a repeat. Starting from a well-formed
graph it never does: symmetry keeps the target out of the requester's
followings whenever the requester is absent from the target's followers. The chat store invariant is `ChatDirectory.Valid`: every id is
below the counter, ids are distinct, every message belongs to a stored
chat, and two distinct users share at most one chat.

## Model

| member | source | states |
|---|---|---|
| Js.IndexOf | backend/controllers/userController.js:33-34 | the result is the first index holding the value, or -1 exactly when the value is absent |
| Js.SpliceOne | backend/controllers/userController.js:35-36 | `splice(k, 1)` at a valid index drops exactly that element and keeps the order of the rest. With -1 on a non-empty array it drops the last element. On an empty array, or past the end, nothing changes |
| Js.PushThenSplice | backend/controllers/userController.js:33-45 | after pushing a value the array lacked, `indexOf` finds it at the old length, and splicing there gives back the original array |
| Js.SpliceMembers | backend/controllers/userController.js:35-36 | in a duplicate-free array, splicing index k removes exactly the value at k and keeps every other value |
| Js.Without | backend/controllers/messageController.js:68-70 | filtering out an id removes every copy of it, keeps every other id and never grows the list |
| UserController.FindById | backend/controllers/userController.js:20-21 | the lookup misses exactly when no document has the id; otherwise it returns the first document with that id |
| UserController.FollowAndUnfollowUser | backend/controllers/userController.js:19-53 | missing target: 404 "No user with this id", nothing changes. Target is the requester: 400 "you cannot follow yourself", nothing changes; this check comes second. Otherwise the unfollow branch runs ("User Unfollowed") when the requester is among the target's followers, else the follow branch ("User followed"). No id changes and every lookup finds the same document |
| UserController.Follow | backend/controllers/userController.js:43-51 | the target's id goes to the end of the requester's followings and the requester's id to the end of the target's followers; no other document or field changes |
| UserController.Unfollow | backend/controllers/userController.js:32-41 | only the requester's followings and the target's followers change. The target loses exactly one copy of the requester, so its length drops by one. The requester loses one copy of the target when present; otherwise the last following is dropped, or the list stays empty |
| UserController.UpdateProfile | backend/controllers/userController.js:68-87 | replies "Profile updated" and touches only the requester's name. The name is replaced by a truthy given name; with no name or an empty one, nothing changes |
| UserController.GetAllUser | backend/controllers/userController.js:104-111 | returns stored users only and never the requester. Every result matches the pattern, and every stored user other than the requester whose name matches is returned |
| FollowGraph.UnfollowKeepsWellFormed | backend/controllers/userController.js:32-41 | in a well-formed graph, the unfollow branch leaves both sides of every edge in agreement and no list with a repeat |
| FollowGraph.FollowKeepsWellFormed | backend/controllers/userController.js:43-51 | in a well-formed graph without the edge, the follow branch adds it on both sides and creates no repeat |
| FollowGraph.FollowPreservesWellFormed | backend/controllers/userController.js:32-51 | if followers and followings are symmetric and duplicate-free before a toggle, they still are after it |
| FollowGraph.UnfollowMembers | backend/controllers/userController.js:32-36 | in a well-formed graph, the unfollow branch removes exactly the requester from the target's followers and exactly the target from the requester's followings |
| FollowGraph.UnfollowUndoesFollow | backend/controllers/userController.js:32-51 | on a pair with no edge in either list, the unfollow branch applied after the follow branch gives back the collection unchanged |
| FollowGraph.FollowThenUnfollowRestores | backend/controllers/userController.js:19-53 | two toggles on a pair with no edge answer "User followed" and then "User Unfollowed", and the collection ends exactly as it began |
| FollowGraph.UnfollowWithMissingFollowingDropsLast | backend/controllers/userController.js:32-36 | when the lists are out of step, unfollowing drops the requester's last following, here a third user |
| FollowGraph.UpdateProfilePreservesWellFormed | backend/controllers/userController.js:68-87 | the profile update keeps the follow graph well formed |
| FollowGraph.EmptySearchListsEveryoneElse | backend/controllers/userController.js:104-111 | when the empty pattern matches every name, a search with no term returns every user except the requester, and never the requester |
| MessageController.FindChat | backend/controllers/messageController.js:14-16 | the lookup misses exactly when no chat holds both ids; otherwise it returns the first chat holding both |
| MessageController.MessagesOf | backend/controllers/messageController.js:58-60 | every returned message carries the queried chat id, and there are never more than are stored |
| MessageController.MessagesOfExactly | backend/controllers/messageController.js:58-60 | the query returns only stored messages, and every stored message with the chat id is returned |
| MessageController.ResolveChat | backend/controllers/messageController.js:14-26 | an existing chat holding both ids is reused unchanged. A new chat `[sender, receiver]` with the next fresh id is appended only when no chat holds both |
| MessageController.SendMessage | backend/controllers/messageController.js:6-44 | falsy receiver id: 400 "Please give receiver id", store unchanged. Otherwise status 201 with a message that has a fresh id and the given sender and text. Exactly that message is appended and older messages are untouched. The chat it names holds both users and has the new latest-message summary. No chat changes its id or users, and every other chat is untouched. An existing chat holding both is reused and no chat is added; otherwise the chat `[sender, receiver]` is appended and holds the message. A "newMessage" push goes to the receiver's socket exactly when the receiver has a presence entry |
| MessageController.GetAllMessages | backend/controllers/messageController.js:45-62 | 400 "No chat with user" exactly when no chat holds both ids. Otherwise 200 with the messages of the first chat holding both, in store order, and exactly that chat's stored messages |
| MessageController.ChatsOf | backend/controllers/messageController.js:63-73 | no listed chat includes the requester, and the list is never longer than the store |
| MessageController.ChatsOfExactly | backend/controllers/messageController.js:63-73 | every listed chat is a stored chat holding the requester, with the requester filtered out, and every such chat is listed |
| MessageController.GetAllChats | backend/controllers/messageController.js:63-73 | the find-then-filter loop over the store returns exactly the requester's chat list as `ChatsOf` defines it |
| ChatDirectory.FindChatSymmetric | backend/controllers/messageController.js:14-16 | the chat lookup gives the same chat whichever id comes first |
| ChatDirectory.FindChatSelf | backend/controllers/messageController.js:14-16 | with the same id twice, the lookup returns the first chat the user belongs to, whoever else is in it |
| ChatDirectory.SelfSendLandsInAnyChat | backend/controllers/messageController.js:14-43 | a user messaging themselves writes into their existing chat with someone else and overwrites that chat's summary |
| ChatDirectory.GetAllMessagesIsHistory | backend/controllers/messageController.js:45-62 | `getAllMessages` answers with the pair's history, and refuses exactly when the pair has no chat, whose history is then empty |
| ChatDirectory.ResolutionIsOrderIndependent | backend/controllers/messageController.js:14-52 | sends A to B and B to A resolve the same chat, and `getAllMessages` gives the same answer from either side |
| ChatDirectory.NewChatKeepsOnePerPair | backend/controllers/messageController.js:17-26 | appending a two-user chat for a pair no chat holds keeps at most one chat per pair of distinct users |
| ChatDirectory.StoreKeepsValid | backend/controllers/messageController.js:14-38 | storing a message, with a fresh id, in the resolved chat (reused, or newly appended for a pair with no chat) keeps the store invariant |
| ChatDirectory.SendPreservesValid | backend/controllers/messageController.js:6-44 | every send, accepted or refused, keeps the chat store valid, including at most one chat per pair of distinct users |
| ChatDirectory.NewChatStartsEmpty | backend/controllers/messageController.js:14-26 | a chat appended for a pair with no chat is the one the lookup then finds, and it has no messages yet |
| ChatDirectory.SendAppendsToHistory | backend/controllers/messageController.js:14-60 | in a valid store, an accepted send makes its message the last one of the pair's history, read from either side, after all earlier messages |
| ChatDirectory.MessagesOfAppend | backend/controllers/messageController.js:58-60 | storing one more message adds it to the end of its own chat's messages and leaves every other chat's messages alone |
| ChatDirectory.AppendFreshKeepsDistinct | backend/controllers/messageController.js:27-31 | storing a message with an id above every stored one keeps message ids distinct |
| ChatDirectory.AppendOwnedKeepsChats | backend/controllers/messageController.js:27-31 | storing a message of a stored chat, while no chat loses its id, keeps every message attached to a stored chat |
| ChatDirectory.ConverseKeepsValid | backend/controllers/messageController.js:6-44 | any sequence of sends between two users keeps the store valid |
| ChatDirectory.ConverseLast | backend/controllers/messageController.js:27-60 | the last send of a conversation adds exactly one message, from its speaker and with its text, to the end of the pair's history |
| ChatDirectory.ConversationHistoryInOrder | backend/controllers/messageController.js:27-60 | after any sequence of sends between two users, their history is the old history followed by one message per send, in send order, with the right sender and text |
| ChatDirectory.MissingReceiverChangesNothing | backend/controllers/messageController.js:9-13 | an absent or empty receiver id gives 400 and leaves chats, messages and pushes unchanged |
| ChatDirectory.FirstMessageCreatesChat | backend/controllers/messageController.js:14-43 | the first "hi" from A to an offline B creates the chat `[A, B]` with summary `{hi, A}`, stores one message and pushes nothing. B then reads it from their side |
| ChatClient.CreateChatBody | frontend/src/context/ChatContext.jsx:44-47 | the body the chat page sends has no `recieverId` field |
| ChatClient.CreateChatAsWrittenIsRejected | backend/controllers/messageController.js:7-13 | the chat page's request is always refused with 400 and changes nothing |
| ChatClient.CreateChatBodyFixed | frontend/src/context/ChatContext.jsx:44-47 | the corrected body carries the receiver under `recieverId` |
| ChatClient.CreateChatFixedIsSent | backend/controllers/messageController.js:7-43 | the corrected request is answered 201 and its "hii" becomes the last message of the pair's history |

## Left out

- Authentication: the requester's id is an input. `followAndUnfollowUser` and `updateProfile` require the requester's document to exist, because the authentication middleware (backend/middlewares/isAuth.js:18-22) has just loaded it and requests are sequential here.
- Database behaviour: id casting (a malformed id would raise a cast error) and the error wrapper `Trycatch` are not modelled. Ids are plain strings compared by value, which is how Mongoose arrays compare ObjectIds in `includes` and `indexOf`.
- Persistence: the two `save()` calls of the toggle are one atomic update here, and so are the writes of a send. Concurrent requests, such as two first messages creating two chats for one pair, are out of scope.
- The `updateProfile` picture upload (Cloudinary destroy and upload), the `upadtePassword` bcrypt check, and `myProfile`, `userProfile` and `userFollowerandFollowingData` (plain reads) are not modelled. `updateProfile` also ignores the `:id` route parameter, and so does the model.
- UserController.GetAllUser: the case-insensitive regular-expression match is an abstract predicate, and the result order is not stated beyond being drawn from the store. `populate` of user profiles in `getAllchats` is not modelled: chats list user ids.
- MessageController.SendMessage: the push's delivery, the socket registry's connect and disconnect handling, and the online-user broadcast are not modelled. The socket module is not part of this model. A presence entry stands in for `getReciverSocketId`, and a socket id is never empty.
- The message text is any string: the message schema is not part of this model, so an absent `message` field is not distinguished from a string.
- Timestamps the database adds to documents, and the chat model's schema beyond `users` and `latestMessage`, are not modelled.

## Findings

| source | as written | input that shows it | evidently intended | confidence | as-written member | corrected member |
|---|---|---|---|---|---|---|
| frontend/src/context/ChatContext.jsx:44-47 | the chat page posts the receiver as `receiverId`, while `sendMessage` reads `recieverId` (backend/controllers/messageController.js:7) | `createChat("u2")` posts `{receiverId: "u2", message: "hii"}`, and `sendMessage` sees an undefined `recieverId` and answers 400 | the page and the controller use the same field name, so opening a chat stores the greeting and answers 201 | high, not executed | ChatClient.CreateChatAsWrittenIsRejected | ChatClient.CreateChatFixedIsSent |
