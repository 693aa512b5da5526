/** Properties of the chat store that span several requests: the store
    invariant sends keep (fresh ids, messages that belong to stored chats, at
    most one chat per pair of distinct users), order-independent chat
    resolution, and message histories that grow in send order. */
module ChatDirectory {
  import opened Wrappers
  import opened Http
  import opened Js
  import opened MessageController

  /** Every id handed out so far is below the counter. */
  predicate IdsBelowCounter(st: Store) {
    && (forall i :: 0 <= i < |st.chats| ==> st.chats[i].id < st.nextId)
    && (forall i :: 0 <= i < |st.messages| ==> st.messages[i].id < st.nextId)
  }

  /** No two chats, and no two messages, share an id. */
  predicate DistinctIds(st: Store) {
    && (forall i, j :: 0 <= i < j < |st.chats| ==> st.chats[i].id != st.chats[j].id)
    && (forall i, j :: 0 <= i < j < |st.messages| ==> st.messages[i].id != st.messages[j].id)
  }

  /** Some stored chat has this id. */
  predicate IsChatId(chats: seq<Chat>, id: ObjectId) {
    exists i :: 0 <= i < |chats| && chats[i].id == id
  }

  /** Every message belongs to a stored chat. */
  predicate MessagesHaveChats(st: Store) {
    forall i :: 0 <= i < |st.messages| ==> IsChatId(st.chats, st.messages[i].chatId)
  }

  /** Two distinct users share at most one chat. */
  ghost predicate OneChatPerPair(chats: seq<Chat>) {
    forall i, j, a, b ::
      (0 <= i < |chats| && 0 <= j < |chats| && a != b && HasBoth(chats[i], a, b) && HasBoth(chats[j], a, b))
      ==> i == j
  }

  /** The chat store invariant. */
  ghost predicate Valid(st: Store) {
    IdsBelowCounter(st) && DistinctIds(st) && MessagesHaveChats(st) && OneChatPerPair(st.chats)
  }

  /** The empty store every deployment starts from. */
  lemma EmptyStoreValid(nextId: ObjectId)
    ensures Valid(Store([], [], nextId, []))
  {
  }

  /** Chat lookup treats the pair as unordered. */
  lemma FindChatSymmetric(chats: seq<Chat>, a: UserId, b: UserId)
    ensures FindChat(chats, a, b) == FindChat(chats, b, a)
  {
  }

  /** With the same id twice, `$all: [a, a]` asks only for `a`: the first chat
      `a` belongs to matches, whoever else is in it. */
  lemma FindChatSelf(chats: seq<Chat>, a: UserId)
    ensures FindChat(chats, a, a).None? <==> forall i :: 0 <= i < |chats| ==> a !in chats[i].users
    ensures FindChat(chats, a, a).Some? ==>
      a in chats[FindChat(chats, a, a).value].users &&
      forall j :: 0 <= j < FindChat(chats, a, a).value ==> a !in chats[j].users
  {
  }

  /** Lookup reads only the users lists. */
  lemma FindChatSameUsers(c: seq<Chat>, d: seq<Chat>, a: UserId, b: UserId)
    requires |c| == |d| && forall i :: 0 <= i < |c| ==> c[i].users == d[i].users
    ensures FindChat(c, a, b) == FindChat(d, a, b)
  {
  }

  /** Messages of one chat after one more message is stored. */
  lemma {:induction false} MessagesOfAppend(ms: seq<Message>, m: Message, id: ObjectId)
    ensures MessagesOf(ms + [m], id) == MessagesOf(ms, id) + (if m.chatId == id then [m] else [])
  {
    assert (ms + [m])[..|ms|] == ms;
  }

  /** A chat id no message refers to has no messages. */
  lemma {:induction false} MessagesOfUnused(ms: seq<Message>, id: ObjectId)
    requires forall i :: 0 <= i < |ms| ==> ms[i].chatId != id
    ensures MessagesOf(ms, id) == []
  {
    if |ms| > 0 {
      MessagesOfUnused(ms[..|ms| - 1], id);
    }
  }

  /** The conversation between `a` and `b` as `getAllMessages` returns it
      (empty when they have no chat); `GetAllMessagesIsHistory` proves the two
      agree. */
  function HistoryOf(st: Store, a: UserId, b: UserId): (h: seq<Message>)
    ensures FindChat(st.chats, a, b).None? ==> h == []
    ensures FindChat(st.chats, a, b).Some? ==>
      forall k :: 0 <= k < |h| ==> h[k].chatId == st.chats[FindChat(st.chats, a, b).value].id
  {
    match FindChat(st.chats, a, b)
    case None => []
    case Some(i) => MessagesOf(st.messages, st.chats[i].id)
  }

  /** `getAllMessages` answers with the pair's history, in store order, and
      refuses exactly when that history has no chat behind it. */
  lemma GetAllMessagesIsHistory(st: Store, a: UserId, b: UserId)
    ensures GetAllMessages(st, a, b).Ok? ==> GetAllMessages(st, a, b).body == HistoryOf(st, a, b)
    ensures GetAllMessages(st, a, b).Fail? <==> FindChat(st.chats, a, b).None?
    ensures GetAllMessages(st, a, b).Fail? ==> HistoryOf(st, a, b) == []
  {
  }

  /** Sends A to B and B to A, and reads from either side, resolve the same chat. */
  lemma ResolutionIsOrderIndependent(st: Store, presence: Presence, a: UserId, b: UserId, text: string)
    ensures ResolveChat(st, a, b, text).1 == ResolveChat(st, b, a, text).1
    ensures GetAllMessages(st, a, b) == GetAllMessages(st, b, a)
    ensures HistoryOf(st, a, b) == HistoryOf(st, b, a)
  {
    FindChatSymmetric(st.chats, a, b);
  }

  /** The store after a successful send, spelled out. */
  lemma SendShape(st: Store, presence: Presence, sender: UserId, receiver: UserId, text: string)
    requires receiver != ""
    ensures
      var r := SendMessage(st, presence, sender, Some(receiver), text);
      var (chats, i, next) := ResolveChat(st, sender, receiver, text);
      && r.reply.body == Message(next, chats[i].id, sender, text)
      && r.state.chats == chats[i := chats[i].(latestMessage := Latest(text, sender))]
      && r.state.nextId == next + 1
  {
  }

  /** A send keeps the store invariant. In particular a chat is created only
      when no chat holds both users, so there is never a second chat for a pair. */
  lemma SendPreservesValid(st: Store, presence: Presence, sender: UserId, recieverId: Option<string>, text: string)
    requires Valid(st)
    ensures Valid(SendMessage(st, presence, sender, recieverId, text).state)
  {
    if Truthy(recieverId) {
      var receiver := recieverId.value;
      var r := SendMessage(st, presence, sender, recieverId, text);
      var (chats, i, next) := ResolveChat(st, sender, receiver, text);
      SendShape(st, presence, sender, receiver, text);
      StoreKeepsValid(st, r.state, chats, i, r.reply.body, sender, receiver);
    }
  }

  /** The store invariant after a send has resolved chat `i` of `chats` and
      stored `m` in it. */
  lemma StoreKeepsValid(st: Store, s: Store, chats: seq<Chat>, i: nat, m: Message, sender: UserId, receiver: UserId)
    requires Valid(st)
    requires i < |chats| && HasBoth(chats[i], sender, receiver)
    requires FindChat(st.chats, sender, receiver).Some? ==> chats == st.chats
    requires FindChat(st.chats, sender, receiver).None? ==>
      && |chats| == |st.chats| + 1 && chats[..|st.chats|] == st.chats
      && chats[|st.chats|].id == st.nextId && chats[|st.chats|].users == [sender, receiver]
    requires st.nextId <= m.id && m.chatId == chats[i].id
    requires forall k :: 0 <= k < |chats| ==> chats[k].id <= m.id
    requires s.nextId == m.id + 1
    requires |s.chats| == |chats| && forall k :: 0 <= k < |chats| ==> s.chats[k].id == chats[k].id && s.chats[k].users == chats[k].users
    requires s.messages == st.messages + [m]
    ensures Valid(s)
  {
    assert forall k :: 0 <= k < |st.chats| ==> s.chats[k].id == st.chats[k].id by {
      if FindChat(st.chats, sender, receiver).None? {
        assert forall k :: 0 <= k < |st.chats| ==> chats[k] == chats[..|st.chats|][k];
      }
    }
    assert DistinctIds(s) by {
      forall p, q | 0 <= p < q < |s.chats| ensures s.chats[p].id != s.chats[q].id {
        if FindChat(st.chats, sender, receiver).None? && q == |st.chats| {
          assert s.chats[p].id == st.chats[p].id;
        }
      }
      AppendFreshKeepsDistinct(st.messages, m);
    }
    assert IsChatId(s.chats, m.chatId) by {
      assert s.chats[i].id == m.chatId;
    }
    AppendOwnedKeepsChats(st, s, m);
    if FindChat(st.chats, sender, receiver).None? {
      assert chats == st.chats + [chats[|st.chats|]];
      NewChatKeepsOnePerPair(st.chats, chats[|st.chats|]);
    }
    SameUsersKeepOnePerPair(chats, s.chats);
  }

  /** A message whose id is above every stored one keeps message ids distinct. */
  lemma AppendFreshKeepsDistinct(ms: seq<Message>, m: Message)
    requires forall p, q :: 0 <= p < q < |ms| ==> ms[p].id != ms[q].id
    requires forall p :: 0 <= p < |ms| ==> ms[p].id < m.id
    ensures forall p, q :: 0 <= p < q < |ms + [m]| ==> (ms + [m])[p].id != (ms + [m])[q].id
  {
    forall p, q | 0 <= p < q < |ms + [m]| ensures (ms + [m])[p].id != (ms + [m])[q].id {
      assert (ms + [m])[p] == ms[p];
    }
  }

  /** Storing a message of a stored chat, while no stored chat loses its id,
      keeps every message attached to a stored chat. */
  lemma AppendOwnedKeepsChats(st: Store, s: Store, m: Message)
    requires MessagesHaveChats(st)
    requires |st.chats| <= |s.chats| && forall k :: 0 <= k < |st.chats| ==> s.chats[k].id == st.chats[k].id
    requires IsChatId(s.chats, m.chatId)
    requires s.messages == st.messages + [m]
    ensures MessagesHaveChats(s)
  {
    forall p | 0 <= p < |s.messages| ensures IsChatId(s.chats, s.messages[p].chatId) {
      if p < |st.messages| {
        var c :| 0 <= c < |st.chats| && st.chats[c].id == st.messages[p].chatId;
        assert s.chats[c].id == st.messages[p].chatId;
      }
    }
  }

  /** Appending a chat for a pair no chat holds yet keeps one chat per pair. */
  lemma NewChatKeepsOnePerPair(chats: seq<Chat>, c: Chat)
    requires OneChatPerPair(chats)
    requires |c.users| == 2 && FindChat(chats, c.users[0], c.users[1]).None?
    ensures OneChatPerPair(chats + [c])
  {
    var s := chats + [c];
    forall p, q, a, b | 0 <= p < |s| && 0 <= q < |s| && a != b && HasBoth(s[p], a, b) && HasBoth(s[q], a, b)
      ensures p == q
    {
      if p < |chats| && q < |chats| {
        assert s[p] == chats[p] && s[q] == chats[q];
      } else if p < |chats| {
        assert s[p] == chats[p];
        assert HasBoth(chats[p], c.users[0], c.users[1]);
      } else if q < |chats| {
        assert s[q] == chats[q];
        assert HasBoth(chats[q], c.users[0], c.users[1]);
      }
    }
  }

  /** Rewriting chat summaries leaves the pair structure alone. */
  lemma SameUsersKeepOnePerPair(c: seq<Chat>, d: seq<Chat>)
    requires OneChatPerPair(c)
    requires |c| == |d| && forall k :: 0 <= k < |c| ==> c[k].users == d[k].users
    ensures OneChatPerPair(d)
  {
    forall p, q, a, b | 0 <= p < |d| && 0 <= q < |d| && a != b && HasBoth(d[p], a, b) && HasBoth(d[q], a, b)
      ensures p == q
    {
      assert HasBoth(c[p], a, b) && HasBoth(c[q], a, b);
    }
  }

  /** The pair's history once a send has stored `m` in the chat at position
      `i` of `chats`, the chats after resolution. */
  lemma HistoryAfterStore(st: Store, s: Store, chats: seq<Chat>, i: nat, m: Message, sender: UserId, receiver: UserId)
    requires Valid(st)
    requires FindChat(st.chats, sender, receiver).Some? ==> chats == st.chats && i == FindChat(st.chats, sender, receiver).value
    requires FindChat(st.chats, sender, receiver).None? ==>
      && i == |st.chats| && |chats| == |st.chats| + 1 && chats[..|st.chats|] == st.chats
      && chats[i].id == st.nextId && HasBoth(chats[i], sender, receiver)
    requires i < |chats| && m.chatId == chats[i].id
    requires |s.chats| == |chats| && forall k :: 0 <= k < |chats| ==> s.chats[k].users == chats[k].users && s.chats[k].id == chats[k].id
    requires s.messages == st.messages + [m]
    ensures HistoryOf(s, sender, receiver) == HistoryOf(st, sender, receiver) + [m]
  {
    FindChatSameUsers(s.chats, chats, sender, receiver);
    MessagesOfAppend(st.messages, m, chats[i].id);
    if FindChat(st.chats, sender, receiver).None? {
      NewChatStartsEmpty(st, chats, sender, receiver);
    }
  }

  /** A chat appended for a pair with no chat is the one lookup now finds, and
      it has no messages yet: every stored message belongs to an older chat,
      whose id is below the fresh one. */
  lemma NewChatStartsEmpty(st: Store, chats: seq<Chat>, sender: UserId, receiver: UserId)
    requires IdsBelowCounter(st) && MessagesHaveChats(st)
    requires FindChat(st.chats, sender, receiver).None?
    requires |chats| == |st.chats| + 1 && chats[..|st.chats|] == st.chats
    requires chats[|st.chats|].id == st.nextId && HasBoth(chats[|st.chats|], sender, receiver)
    ensures FindChat(chats, sender, receiver) == Some(|st.chats|)
    ensures MessagesOf(st.messages, chats[|st.chats|].id) == []
  {
    forall j | 0 <= j < |st.chats| ensures !HasBoth(chats[j], sender, receiver) {
      assert chats[j] == chats[..|st.chats|][j];
    }
    forall p | 0 <= p < |st.messages| ensures st.messages[p].chatId != st.nextId {
      var c :| 0 <= c < |st.chats| && st.chats[c].id == st.messages[p].chatId;
    }
    MessagesOfUnused(st.messages, st.nextId);
  }

  /** A successful send adds its message to the end of the pair's history,
      read from either side; every earlier message stays where it was. */
  lemma SendAppendsToHistory(st: Store, presence: Presence, sender: UserId, receiver: UserId, text: string)
    requires Valid(st) && receiver != ""
    ensures
      var r := SendMessage(st, presence, sender, Some(receiver), text);
      && HistoryOf(r.state, sender, receiver) == HistoryOf(st, sender, receiver) + [r.reply.body]
      && HistoryOf(r.state, receiver, sender) == HistoryOf(st, sender, receiver) + [r.reply.body]
  {
    var r := SendMessage(st, presence, sender, Some(receiver), text);
    var (chats, i, next) := ResolveChat(st, sender, receiver, text);
    SendShape(st, presence, sender, receiver, text);
    HistoryAfterStore(st, r.state, chats, i, r.reply.body, sender, receiver);
    FindChatSymmetric(r.state.chats, sender, receiver);
  }

  /** One request of a two-person conversation: who speaks, and what. */
  datatype Turn = Turn(fromFirst: bool, text: string)

  /** One turn of the conversation between `a` and `b`. */
  function Say(st: Store, presence: Presence, a: UserId, b: UserId, t: Turn): (r: Step<Message, Store>)
    requires a != "" && b != ""
  {
    if t.fromFirst then SendMessage(st, presence, a, Some(b), t.text)
    else SendMessage(st, presence, b, Some(a), t.text)
  }

  /** The store after `a` and `b` send each other the given turns, in order. */
  function Converse(st: Store, presence: Presence, a: UserId, b: UserId, turns: seq<Turn>): (r: Store)
    requires a != "" && b != ""
  {
    if |turns| == 0 then st
    else Say(Converse(st, presence, a, b, turns[..|turns| - 1]), presence, a, b, turns[|turns| - 1]).state
  }

  /** One turn keeps the store valid and adds its message, with the speaker
      as sender, to the end of the pair's history. */
  lemma SayAppends(st: Store, presence: Presence, a: UserId, b: UserId, t: Turn)
    requires Valid(st) && a != "" && b != ""
    ensures Valid(Say(st, presence, a, b, t).state)
    ensures
      var r := Say(st, presence, a, b, t);
      && HistoryOf(r.state, a, b) == HistoryOf(st, a, b) + [r.reply.body]
      && r.reply.body.text == t.text
      && r.reply.body.sender == (if t.fromFirst then a else b)
  {
    if t.fromFirst {
      SendPreservesValid(st, presence, a, Some(b), t.text);
      SendAppendsToHistory(st, presence, a, b, t.text);
    } else {
      SendPreservesValid(st, presence, b, Some(a), t.text);
      SendAppendsToHistory(st, presence, b, a, t.text);
      FindChatSymmetric(st.chats, a, b);
    }
  }

  /** Who said what, message by message. */
  function Said(h: seq<Message>): (r: seq<(UserId, string)>)
    ensures |r| == |h|
  {
    seq(|h|, k requires 0 <= k < |h| => (h[k].sender, h[k].text))
  }

  /** Who says what, turn by turn. */
  function Spoken(a: UserId, b: UserId, turns: seq<Turn>): (r: seq<(UserId, string)>)
    ensures |r| == |turns|
  {
    seq(|turns|, k requires 0 <= k < |turns| => (if turns[k].fromFirst then a else b, turns[k].text))
  }

  /** The last step of a conversation, as sequences of who said what. */
  lemma SaidStep(h: seq<Message>, h0: seq<Message>, m: Message, a: UserId, b: UserId, turns: seq<Turn>)
    requires |turns| > 0
    requires |h| <= |h0| && h0[..|h|] == h
    requires Said(h0) == Said(h) + Spoken(a, b, turns[..|turns| - 1])
    requires m.sender == (if turns[|turns| - 1].fromFirst then a else b) && m.text == turns[|turns| - 1].text
    ensures (h0 + [m])[..|h|] == h
    ensures Said(h0 + [m]) == Said(h) + Spoken(a, b, turns)
  {
    assert (h0 + [m])[..|h|] == h0[..|h|];
    var l := Said(h0 + [m]);
    var r := Said(h) + Spoken(a, b, turns);
    assert |l| == |r|;
    forall k | 0 <= k < |l| ensures l[k] == r[k] {
      if k < |h0| {
        assert l[k] == Said(h0)[k];
        if k >= |h| {
          assert Spoken(a, b, turns[..|turns| - 1])[k - |h|] == Spoken(a, b, turns)[k - |h|];
        }
      }
    }
  }

  /** A conversation keeps the store valid. */
  lemma {:induction false} ConverseKeepsValid(st: Store, presence: Presence, a: UserId, b: UserId, turns: seq<Turn>)
    requires Valid(st) && a != "" && b != ""
    ensures Valid(Converse(st, presence, a, b, turns))
  {
    if |turns| > 0 {
      ConverseKeepsValid(st, presence, a, b, turns[..|turns| - 1]);
      SayAppends(Converse(st, presence, a, b, turns[..|turns| - 1]), presence, a, b, turns[|turns| - 1]);
    }
  }

  /** The last turn of a conversation adds one message, from its speaker and
      with its text, to the end of the pair's history. */
  lemma ConverseLast(st: Store, presence: Presence, a: UserId, b: UserId, turns: seq<Turn>)
    requires Valid(st) && a != "" && b != "" && |turns| > 0
    ensures
      var t := turns[|turns| - 1];
      exists m: Message ::
        && HistoryOf(Converse(st, presence, a, b, turns), a, b)
           == HistoryOf(Converse(st, presence, a, b, turns[..|turns| - 1]), a, b) + [m]
        && m.sender == (if t.fromFirst then a else b)
        && m.text == t.text
  {
    var before := Converse(st, presence, a, b, turns[..|turns| - 1]);
    ConverseKeepsValid(st, presence, a, b, turns[..|turns| - 1]);
    SayAppends(before, presence, a, b, turns[|turns| - 1]);
    var m := Say(before, presence, a, b, turns[|turns| - 1]).reply.body;
    assert HistoryOf(Converse(st, presence, a, b, turns), a, b) == HistoryOf(before, a, b) + [m];
  }

  /** Whatever two users send each other lands in their history in the order
      it was sent, after everything that was there before, with the right
      sender and text on each message. */
  lemma {:induction false} ConversationHistoryInOrder(st: Store, presence: Presence, a: UserId, b: UserId, turns: seq<Turn>)
    requires Valid(st) && a != "" && b != ""
    ensures
      var h := HistoryOf(st, a, b);
      var h' := HistoryOf(Converse(st, presence, a, b, turns), a, b);
      && |h| <= |h'|
      && h'[..|h|] == h
      && Said(h') == Said(h) + Spoken(a, b, turns)
  {
    if |turns| > 0 {
      var init := turns[..|turns| - 1];
      var t := turns[|turns| - 1];
      ConversationHistoryInOrder(st, presence, a, b, init);
      ConverseLast(st, presence, a, b, turns);
      var h := HistoryOf(st, a, b);
      var h0 := HistoryOf(Converse(st, presence, a, b, init), a, b);
      var h1 := HistoryOf(Converse(st, presence, a, b, turns), a, b);
      var m: Message :| h1 == h0 + [m] && m.sender == (if t.fromFirst then a else b) && m.text == t.text;
      SaidStep(h, h0, m, a, b, turns);
    }
  }

  /** A send with no usable receiver id creates no chat, stores no message
      and pushes nothing. */
  lemma MissingReceiverChangesNothing(st: Store, presence: Presence, sender: UserId, text: string)
    ensures SendMessage(st, presence, sender, None, text) == Step(Fail(400, MissingReceiverMessage), st)
    ensures SendMessage(st, presence, sender, Some(""), text) == Step(Fail(400, MissingReceiverMessage), st)
  {
  }

  /** The store after the first "hi" from A to an offline B, spelled out. */
  lemma FirstSendStore(presence: Presence)
    requires "b" !in presence
    ensures SendMessage(Store([], [], 0, []), presence, "a", Some("b"), "hi")
         == Step(Ok(201, Message(1, 0, "a", "hi")),
                 Store([Chat(0, ["a", "b"], Latest("hi", "a"))], [Message(1, 0, "a", "hi")], 2, []))
  {
    var st := Store([], [], 0, []);
    var chat := Chat(0, ["a", "b"], Latest("hi", "a"));
    assert ResolveChat(st, "a", "b", "hi") == ([chat], 0, 1);
    SendShape(st, presence, "a", "b", "hi");
    var r := SendMessage(st, presence, "a", Some("b"), "hi");
    var msg := Message(1, 0, "a", "hi");
    assert r.reply.body == msg;
    assert r.reply == Ok(201, msg);
    assert [chat][0 := chat] == [chat];
    assert r.state.chats == [chat];
    assert r.state.messages == [] + [msg] == [msg];
    assert r.state.pushed == [];
    assert r.state.nextId == 2;
  }

  /** First contact: A says "hi" to an offline B with no chat between them. A
      chat for the two is created with "hi" as its summary, the history holds
      that one message, and no push goes out. */
  lemma FirstMessageCreatesChat(presence: Presence)
    requires "b" !in presence
    ensures
      var r := SendMessage(Store([], [], 0, []), presence, "a", Some("b"), "hi");
      && r.reply == Ok(201, Message(1, 0, "a", "hi"))
      && r.state.chats == [Chat(0, ["a", "b"], Latest("hi", "a"))]
      && r.state.pushed == []
      && GetAllMessages(r.state, "b", "a") == Ok(200, [Message(1, 0, "a", "hi")])
  {
    FirstSendStore(presence);
    var chat := Chat(0, ["a", "b"], Latest("hi", "a"));
    var msg := Message(1, 0, "a", "hi");
    assert HasBoth(chat, "b", "a");
    assert FindChat([chat], "b", "a") == Some(0);
    assert MessagesOf([msg], 0) == [msg];
  }

  /** Messaging oneself lands in whichever chat comes first among those one
      belongs to: here, the chat with B. */
  lemma SelfSendLandsInAnyChat()
    ensures
      var st := Store([Chat(0, ["a", "b"], Latest("yo", "b"))], [], 1, []);
      var r := SendMessage(st, map[], "a", Some("a"), "note to self");
      && r.reply == Ok(201, Message(1, 0, "a", "note to self"))
      && r.state.chats == [Chat(0, ["a", "b"], Latest("note to self", "a"))]
  {
    var st := Store([Chat(0, ["a", "b"], Latest("yo", "b"))], [], 1, []);
    assert HasBoth(st.chats[0], "a", "a");
  }
}
