/**
 * The administrator's side of the contact chat: the list of threads, one per
 * user who has exchanged messages with "admin", the conversation with one
 * user, and sending a reply.
 */
module AdminChat {
  import opened Wrappers
  import opened Http
  import opened Models
  import Text
  import Seqs
  import JsValues

  /** The other participant of a message with the administrator. */
  function Other(m: ContactMessage): string {
    if m.sender == "admin" then m.receiver else m.sender
  }

  /** `{ $or: [{ sender: 'admin' }, { receiver: 'admin' }] }`. */
  predicate WithAdmin(m: ContactMessage) {
    m.sender == "admin" || m.receiver == "admin"
  }

  function NewestFirstKey(m: ContactMessage): int { -m.date }

  /** The messages with the administrator, newest first (`.sort({ date: -1 })`). */
  function NewestFirst(messages: seq<ContactMessage>): (r: seq<ContactMessage>)
    ensures Seqs.SortedBy(r, NewestFirstKey)
    ensures multiset(r) == multiset(Seqs.Filter(messages, WithAdmin))
  {
    Seqs.SortBy(Seqs.Filter(messages, WithAdmin), NewestFirstKey)
  }

  /** A `chatMap` value: the first message met for a participant. */
  datatype ChatEntry = ChatEntry(username: string, lastMessage: string, lastTime: int)

  /** A thread of the reply, with the participant's display name. */
  datatype ChatThread = ChatThread(username: string, lastMessage: string, lastTime: int, name: string)

  /** `chatMap[key]` is truthy: an entry of its own, or an inherited member. */
  predicate Present(chatMap: map<string, ChatEntry>, key: string) {
    key in chatMap || JsValues.Inherited(key)
  }

  /** `chatMap` after the loop has read `ms`: each participant keeps its first message. */
  function FirstEntries(ms: seq<ContactMessage>): map<string, ChatEntry> {
    if ms == [] then map[]
    else
      var prev := FirstEntries(ms[..|ms| - 1]);
      var m := ms[|ms| - 1];
      if Present(prev, Other(m)) then prev else prev[Other(m) := ChatEntry(Other(m), m.message, m.date)]
  }

  /** The keys of `chatMap` in insertion order. */
  function Participants(ms: seq<ContactMessage>): seq<string> {
    if ms == [] then []
    else
      var prev := Participants(ms[..|ms| - 1]);
      var u := Other(ms[|ms| - 1]);
      if u in prev || JsValues.Inherited(u) then prev else prev + [u]
  }

  /**
   * The map and the order agree: the participants are exactly the keys, each
   * once; every message's other participant is one of them unless it is an
   * inherited key, which never is.
   */
  lemma {:induction false} ParticipantsSpec(ms: seq<ContactMessage>)
    ensures forall u :: u in FirstEntries(ms) <==> u in Participants(ms)
    ensures forall u :: u in FirstEntries(ms) ==> FirstEntries(ms)[u].username == u && !JsValues.Inherited(u)
    ensures forall k :: 0 <= k < |ms| && !JsValues.Inherited(Other(ms[k])) ==> Other(ms[k]) in FirstEntries(ms)
    ensures Seqs.Distinct(Participants(ms))
  {
    if ms != [] {
      var init := ms[..|ms| - 1];
      ParticipantsSpec(init);
      forall k | 0 <= k < |ms| && !JsValues.Inherited(Other(ms[k])) ensures Other(ms[k]) in FirstEntries(ms) {
        if k < |ms| - 1 {
          assert ms[k] == init[k];
        }
      }
    }
  }

  /**
   * Reading newest first, each participant's entry is its latest message: it
   * is one of the participant's messages, and none of them is later.
   */
  lemma {:induction false} EntryIsLatest(ms: seq<ContactMessage>, u: string)
    requires Seqs.SortedBy(ms, NewestFirstKey)
    requires u in FirstEntries(ms)
    ensures exists k :: (0 <= k < |ms| && Other(ms[k]) == u &&
      ms[k].message == FirstEntries(ms)[u].lastMessage && ms[k].date == FirstEntries(ms)[u].lastTime)
    ensures forall k :: 0 <= k < |ms| && Other(ms[k]) == u ==> ms[k].date <= FirstEntries(ms)[u].lastTime
  {
    assert ms != [];
    var init := ms[..|ms| - 1];
    assert Seqs.SortedBy(init, NewestFirstKey);
    if u in FirstEntries(init) {
      EntryIsLatest(init, u);
      EarlierEntryKept(ms, u);
    } else {
      NewEntryIsLast(ms, u);
    }
  }

  /** The step of `EntryIsLatest` where the participant had an entry before the last message. */
  lemma EarlierEntryKept(ms: seq<ContactMessage>, u: string)
    requires ms != [] && Seqs.SortedBy(ms, NewestFirstKey)
    requires u in FirstEntries(ms[..|ms| - 1])
    requires var init := ms[..|ms| - 1]; exists k :: (0 <= k < |init| && Other(init[k]) == u &&
      init[k].message == FirstEntries(init)[u].lastMessage && init[k].date == FirstEntries(init)[u].lastTime)
    requires var init := ms[..|ms| - 1];
      forall k :: 0 <= k < |init| && Other(init[k]) == u ==> init[k].date <= FirstEntries(init)[u].lastTime
    ensures u in FirstEntries(ms)
    ensures exists k :: (0 <= k < |ms| && Other(ms[k]) == u &&
      ms[k].message == FirstEntries(ms)[u].lastMessage && ms[k].date == FirstEntries(ms)[u].lastTime)
    ensures forall k :: 0 <= k < |ms| && Other(ms[k]) == u ==> ms[k].date <= FirstEntries(ms)[u].lastTime
  {
    var init := ms[..|ms| - 1];
    var e := FirstEntries(init)[u];
    assert FirstEntries(ms)[u] == e;
    var w :| 0 <= w < |init| && Other(init[w]) == u && init[w].message == e.lastMessage && init[w].date == e.lastTime;
    assert ms[w] == init[w];
    forall k | 0 <= k < |ms| && Other(ms[k]) == u ensures ms[k].date <= e.lastTime {
      if k < |ms| - 1 {
        assert ms[k] == init[k];
      } else {
        assert NewestFirstKey(ms[w]) <= NewestFirstKey(ms[k]);
      }
    }
  }

  /** The step of `EntryIsLatest` where the last message gave the participant its entry. */
  lemma NewEntryIsLast(ms: seq<ContactMessage>, u: string)
    requires ms != []
    requires u in FirstEntries(ms) && u !in FirstEntries(ms[..|ms| - 1])
    ensures exists k :: (0 <= k < |ms| && Other(ms[k]) == u &&
      ms[k].message == FirstEntries(ms)[u].lastMessage && ms[k].date == FirstEntries(ms)[u].lastTime)
    ensures forall k :: 0 <= k < |ms| && Other(ms[k]) == u ==> ms[k].date <= FirstEntries(ms)[u].lastTime
  {
    var init := ms[..|ms| - 1];
    var m := ms[|ms| - 1];
    assert !Present(FirstEntries(init), Other(m));
    assert FirstEntries(ms) == FirstEntries(init)[Other(m) := ChatEntry(Other(m), m.message, m.date)];
    assert Other(m) == u && !JsValues.Inherited(u);
    assert Other(ms[|ms| - 1]) == u;
    forall k | 0 <= k < |ms| - 1 ensures Other(ms[k]) != u {
      assert ms[k] == init[k];
      if Other(init[k]) == u {
        ParticipantsSpec(init);
      }
    }
  }

  /** "first last" of the account with that username, else the username itself. */
  function DisplayName(users: UserCollection, username: string): string
    reads users
  {
    var found := users.FindByUsername(username);
    if found.Some? then found.value.firstName + " " + found.value.lastName else username
  }

  /**
   * A key an object orders as an array index: "0", or decimal digits without
   * a leading zero, with a value below 2^32 - 1.
   */
  predicate IsArrayIndex(key: string) {
    && key != []
    && (forall i :: 0 <= i < |key| ==> Text.IsDigit(key[i]))
    && (key[0] == '0' ==> |key| == 1)
    && Text.DigitsValue(key) < 0xFFFF_FFFF
  }

  predicate NotArrayIndex(key: string) {
    !IsArrayIndex(key)
  }

  function IndexValue(key: string): int {
    if IsArrayIndex(key) then Text.DigitsValue(key) else 0
  }

  /**
   * The order `Object.values` lists the keys of an object in, given their
   * insertion order: the array-index keys first, by increasing value, then
   * the other keys in insertion order.
   */
  function KeyOrder(keys: seq<string>): seq<string> {
    Seqs.SortBy(Seqs.Filter(keys, IsArrayIndex), IndexValue) + Seqs.Filter(keys, NotArrayIndex)
  }

  /** `KeyOrder` lists every key once. */
  lemma KeyOrderMembers(keys: seq<string>)
    ensures |KeyOrder(keys)| == |keys|
    ensures multiset(KeyOrder(keys)) == multiset(keys)
    ensures forall u :: u in KeyOrder(keys) <==> u in keys
    ensures Seqs.Distinct(keys) ==> Seqs.Distinct(KeyOrder(keys))
  {
    var r := KeyOrder(keys);
    Seqs.FilterPartition(keys, IsArrayIndex, NotArrayIndex);
    assert multiset(r) == multiset(keys);
    forall u ensures u in r <==> u in keys {
      assert u in r <==> u in multiset(r);
      assert u in keys <==> u in multiset(keys);
    }
    if Seqs.Distinct(keys) {
      Seqs.DistinctPermutation(keys, r);
    }
  }

  /**
   * `KeyOrder` lists the array-index keys first and in increasing order, and
   * keeps the insertion order of the others.
   */
  lemma KeyOrderSorted(keys: seq<string>)
    ensures var n := |Seqs.Filter(keys, IsArrayIndex)|;
      && n <= |KeyOrder(keys)|
      && (forall i :: 0 <= i < n ==> IsArrayIndex(KeyOrder(keys)[i]))
      && (forall i :: n <= i < |KeyOrder(keys)| ==> NotArrayIndex(KeyOrder(keys)[i]))
      && Seqs.SortedBy(KeyOrder(keys)[..n], IndexValue)
      && KeyOrder(keys)[n..] == Seqs.Filter(keys, NotArrayIndex)
  {
    var front := Seqs.Filter(keys, IsArrayIndex);
    var sorted := Seqs.SortBy(front, IndexValue);
    var back := Seqs.Filter(keys, NotArrayIndex);
    var r := sorted + back;
    assert r[..|front|] == sorted && r[|front|..] == back;
    SortedFront(front);
    forall i | |front| <= i < |r| ensures NotArrayIndex(r[i]) {
      assert r[i] == back[i - |front|];
    }
  }

  lemma SortedFront(front: seq<string>)
    requires forall i :: 0 <= i < |front| ==> IsArrayIndex(front[i])
    ensures forall i :: 0 <= i < |front| ==> IsArrayIndex(Seqs.SortBy(front, IndexValue)[i])
  {
    Seqs.SortByMembers(front, IndexValue);
  }

  /** Users named "10" and "2" are listed before "bob" and in numeric order, whatever the insertion order. */
  lemma NumericNamesListedFirst()
    ensures KeyOrder(["bob", "10", "2"]) == ["2", "10", "bob"]
  {
    ExampleKeys();
    ExampleFilters();
    var sorted := Seqs.SortBy(["10", "2"], IndexValue);
    assert multiset(sorted) == multiset{"10", "2"};
    assert sorted[0] in multiset(sorted) && sorted[1] in multiset(sorted);
    assert sorted == ["2", "10"];
  }

  lemma ExampleKeys()
    ensures IsArrayIndex("10") && IsArrayIndex("2") && !IsArrayIndex("bob")
    ensures IndexValue("10") == 10 && IndexValue("2") == 2
  {
    assert "10"[..1] == "1";
    assert Text.DigitsValue("1") == 1;
    assert Text.IsDigit("10"[0]) && Text.IsDigit("10"[1]);
    assert !Text.IsDigit("bob"[0]);
  }

  lemma ExampleFilters()
    requires IsArrayIndex("10") && IsArrayIndex("2") && !IsArrayIndex("bob")
    ensures Seqs.Filter(["bob", "10", "2"], IsArrayIndex) == ["10", "2"]
    ensures Seqs.Filter(["bob", "10", "2"], NotArrayIndex) == ["bob"]
  {
    assert ["bob", "10", "2"][1..] == ["10", "2"];
    assert ["10", "2"][1..] == ["2"];
  }

  /** Every key `Object.values` visits has an entry in `chatMap`. */
  lemma KeyOrderInEntries(ms: seq<ContactMessage>)
    ensures |KeyOrder(Participants(ms))| == |Participants(ms)|
    ensures forall j :: 0 <= j < |KeyOrder(Participants(ms))| ==> KeyOrder(Participants(ms))[j] in FirstEntries(ms)
  {
    ParticipantsSpec(ms);
    KeyOrderMembers(Participants(ms));
  }

  /** `Object.values(chatMap).map(…)`: the threads in the object's key order, with names. */
  function ThreadsOf(ms: seq<ContactMessage>, users: UserCollection): (r: seq<ChatThread>)
    reads users
    ensures |r| == |Participants(ms)|
  {
    KeyOrderInEntries(ms);
    var entries := FirstEntries(ms);
    var order := KeyOrder(Participants(ms));
    seq(|order|, j requires 0 <= j < |order| reads users =>
      ChatThread(order[j], entries[order[j]].lastMessage, entries[order[j]].lastTime, DisplayName(users, order[j])))
  }

  function LatestFirstKey(t: ChatThread): int { -t.lastTime }

  /** The reply of `GET /chats`: the threads sorted by last message time, newest first. */
  function ChatList(messages: seq<ContactMessage>, users: UserCollection): (r: seq<ChatThread>)
    reads users
    ensures Seqs.SortedBy(r, LatestFirstKey)
  {
    Seqs.SortBy(ThreadsOf(NewestFirst(messages), users), LatestFirstKey)
  }

  /**
   * `GET /chats`: the loop over the messages fills `chatMap`, then the
   * threads get their names and are sorted.
   */
  method Threads(messages: MessageCollection, users: UserCollection) returns (threads: seq<ChatThread>)
    ensures threads == ChatList(messages.messages, users)
  {
    var sorted := NewestFirst(messages.messages);
    var chatMap: map<string, ChatEntry> := map[];
    var order: seq<string> := [];
    var i := 0;
    while i < |sorted|
      invariant 0 <= i <= |sorted|
      invariant chatMap == FirstEntries(sorted[..i])
      invariant order == Participants(sorted[..i])
    {
      var msg := sorted[i];
      var other := if msg.sender == "admin" then msg.receiver else msg.sender;
      Seqs.PrefixSnoc(sorted, i);
      ReadOneMore(sorted[..i], msg);
      ParticipantsSpec(sorted[..i]);
      if !Present(chatMap, other) {
        chatMap := chatMap[other := ChatEntry(other, msg.message, msg.date)];
        order := order + [other];
      }
      i := i + 1;
    }
    assert sorted[..i] == sorted;
    ParticipantsSpec(sorted);
    KeyOrderMembers(order);
    var keys := KeyOrder(order);
    var list := seq(|keys|, j requires 0 <= j < |keys| reads users =>
      ChatThread(keys[j], chatMap[keys[j]].lastMessage, chatMap[keys[j]].lastTime, DisplayName(users, keys[j])));
    assert list == ThreadsOf(sorted, users);
    threads := Seqs.SortBy(list, LatestFirstKey);
  }

  /** What reading one more message does to the map and to the order. */
  lemma ReadOneMore(ms: seq<ContactMessage>, m: ContactMessage)
    ensures FirstEntries(ms + [m]) ==
      if Present(FirstEntries(ms), Other(m)) then FirstEntries(ms)
      else FirstEntries(ms)[Other(m) := ChatEntry(Other(m), m.message, m.date)]
    ensures Participants(ms + [m]) ==
      if Other(m) in Participants(ms) || JsValues.Inherited(Other(m)) then Participants(ms) else Participants(ms) + [Other(m)]
  {
    assert (ms + [m])[..|ms + [m]| - 1] == ms;
  }

  /** The loop's list holds one thread per participant, in the key order of `chatMap`. */
  lemma ThreadsOfSpec(ms: seq<ContactMessage>, users: UserCollection)
    ensures var list := ThreadsOf(ms, users);
      && Seqs.Distinct(list)
      && forall j :: 0 <= j < |list| ==>
        && list[j].username == KeyOrder(Participants(ms))[j] && list[j].username in FirstEntries(ms)
        && list[j].lastMessage == FirstEntries(ms)[list[j].username].lastMessage
        && list[j].lastTime == FirstEntries(ms)[list[j].username].lastTime
        && list[j].name == DisplayName(users, list[j].username)
  {
    ParticipantsSpec(ms);
    KeyOrderMembers(Participants(ms));
    var list := ThreadsOf(ms, users);
    var order := KeyOrder(Participants(ms));
    forall a, b | 0 <= a < b < |list| ensures list[a] != list[b] {
      assert list[a].username == order[a] && list[b].username == order[b];
    }
  }

  /** Each participant has exactly one thread. */
  lemma ChatListOnePerUser(messages: seq<ContactMessage>, users: UserCollection)
    ensures var out := ChatList(messages, users);
      forall i, j :: 0 <= i < j < |out| ==> out[i].username != out[j].username
  {
    var ms := NewestFirst(messages);
    var list := ThreadsOf(ms, users);
    var out := ChatList(messages, users);
    ThreadsOfSpec(ms, users);
    ParticipantsSpec(ms);
    KeyOrderMembers(Participants(ms));
    Seqs.DistinctPermutation(list, out);
    forall i, j | 0 <= i < j < |out| ensures out[i].username != out[j].username {
      assert out[i] in multiset(list) && out[j] in multiset(list);
      var a :| 0 <= a < |list| && list[a] == out[i];
      var b :| 0 <= b < |list| && list[b] == out[j];
      if a != b {
        assert list[a].username == KeyOrder(Participants(ms))[a] && list[b].username == KeyOrder(Participants(ms))[b];
      }
    }
  }

  /** The messages read newest first are exactly the messages with the administrator. */
  lemma NewestFirstMembers(messages: seq<ContactMessage>)
    ensures forall k :: 0 <= k < |messages| && WithAdmin(messages[k]) ==> messages[k] in NewestFirst(messages)
    ensures forall p :: 0 <= p < |NewestFirst(messages)| ==>
      NewestFirst(messages)[p] in messages && WithAdmin(NewestFirst(messages)[p])
  {
    Seqs.SortByMembers(Seqs.Filter(messages, WithAdmin), NewestFirstKey);
  }

  /** Sorting the threads keeps exactly the threads of the loop's list. */
  lemma ChatListMembers(messages: seq<ContactMessage>, users: UserCollection)
    ensures forall i :: 0 <= i < |ChatList(messages, users)| ==>
      ChatList(messages, users)[i] in ThreadsOf(NewestFirst(messages), users)
    ensures forall j :: 0 <= j < |ThreadsOf(NewestFirst(messages), users)| ==>
      ThreadsOf(NewestFirst(messages), users)[j] in ChatList(messages, users)
  {
    Seqs.SortByMembers(ThreadsOf(NewestFirst(messages), users), LatestFirstKey);
  }

  /**
   * Read newest first, the other participant of a message has a thread no
   * older than it, unless the name is an inherited key.
   */
  lemma ThreadOfMessage(ms: seq<ContactMessage>, users: UserCollection, p: nat)
    requires p < |ms| && Seqs.SortedBy(ms, NewestFirstKey)
    ensures !JsValues.Inherited(Other(ms[p])) ==>
      exists j :: (0 <= j < |ThreadsOf(ms, users)| &&
                   ThreadsOf(ms, users)[j].username == Other(ms[p]) && ms[p].date <= ThreadsOf(ms, users)[j].lastTime)
  {
    var u := Other(ms[p]);
    if !JsValues.Inherited(u) {
      ParticipantsSpec(ms);
      KeyOrderMembers(Participants(ms));
      EntryIsLatest(ms, u);
      var j :| 0 <= j < |KeyOrder(Participants(ms))| && KeyOrder(Participants(ms))[j] == u;
      ThreadsOfSpec(ms, users);
      assert ThreadsOf(ms, users)[j].username == u;
    }
  }

  /** Read newest first, a thread shows its participant's latest message. */
  lemma ThreadIsLatest(ms: seq<ContactMessage>, users: UserCollection, j: nat)
    requires j < |ThreadsOf(ms, users)| && Seqs.SortedBy(ms, NewestFirstKey)
    ensures var t := ThreadsOf(ms, users)[j];
      && t.name == DisplayName(users, t.username)
      && (exists p :: 0 <= p < |ms| && Other(ms[p]) == t.username && ms[p].date == t.lastTime && ms[p].message == t.lastMessage)
      && (forall p :: 0 <= p < |ms| && Other(ms[p]) == t.username ==> ms[p].date <= t.lastTime)
  {
    ThreadsOfSpec(ms, users);
    EntryIsLatest(ms, ThreadsOf(ms, users)[j].username);
  }

  /**
   * Everyone who exchanged a message with the administrator has a thread, and
   * its time is no earlier than any of their messages; a name that is an
   * inherited key of `{}` gets no thread at all.
   */
  lemma ChatListCoversEveryone(messages: seq<ContactMessage>, users: UserCollection, k: nat)
    requires k < |messages| && WithAdmin(messages[k])
    ensures var out := ChatList(messages, users);
      !JsValues.Inherited(Other(messages[k])) ==>
        exists i :: 0 <= i < |out| && out[i].username == Other(messages[k]) && messages[k].date <= out[i].lastTime
    ensures var out := ChatList(messages, users);
      JsValues.Inherited(Other(messages[k])) ==> forall i :: 0 <= i < |out| ==> out[i].username != Other(messages[k])
  {
    if JsValues.Inherited(Other(messages[k])) {
      InheritedKeyHasNoThread(messages, users, Other(messages[k]));
    } else {
      CoversOne(messages, users, k);
    }
  }

  /** A user whose name is an inherited key of `{}` has no thread. */
  lemma InheritedKeyHasNoThread(messages: seq<ContactMessage>, users: UserCollection, u: string)
    requires JsValues.Inherited(u)
    ensures forall i :: 0 <= i < |ChatList(messages, users)| ==> ChatList(messages, users)[i].username != u
  {
    var ms := NewestFirst(messages);
    var list := ThreadsOf(ms, users);
    ChatListMembers(messages, users);
    ThreadsOfSpec(ms, users);
    ParticipantsSpec(ms);
    forall i | 0 <= i < |ChatList(messages, users)| ensures ChatList(messages, users)[i].username != u {
      var j :| 0 <= j < |list| && list[j] == ChatList(messages, users)[i];
    }
  }

  lemma CoversOne(messages: seq<ContactMessage>, users: UserCollection, k: nat)
    requires k < |messages| && WithAdmin(messages[k]) && !JsValues.Inherited(Other(messages[k]))
    ensures var out := ChatList(messages, users);
      exists i :: 0 <= i < |out| && out[i].username == Other(messages[k]) && messages[k].date <= out[i].lastTime
  {
    var ms := NewestFirst(messages);
    var list := ThreadsOf(ms, users);
    var out := ChatList(messages, users);
    NewestFirstMembers(messages);
    var p :| 0 <= p < |ms| && ms[p] == messages[k];
    ThreadOfMessage(ms, users, p);
    var j :| 0 <= j < |list| && list[j].username == Other(ms[p]) && ms[p].date <= list[j].lastTime;
    ChatListMembers(messages, users);
    var i :| 0 <= i < |out| && out[i] == list[j];
  }

  /**
   * Each thread shows the participant's display name and one of their
   * messages with the administrator that no other of their messages postdates.
   */
  lemma ChatListShowsLatest(messages: seq<ContactMessage>, users: UserCollection, i: nat)
    requires i < |ChatList(messages, users)|
    ensures var t := ChatList(messages, users)[i];
      && t.name == DisplayName(users, t.username)
      && (exists k :: 0 <= k < |messages| && WithAdmin(messages[k]) && Other(messages[k]) == t.username &&
            messages[k].date == t.lastTime && messages[k].message == t.lastMessage)
      && (forall k :: 0 <= k < |messages| && WithAdmin(messages[k]) && Other(messages[k]) == t.username ==>
            messages[k].date <= t.lastTime)
  {
    var ms := NewestFirst(messages);
    var list := ThreadsOf(ms, users);
    var t := ChatList(messages, users)[i];
    ChatListMembers(messages, users);
    var j :| 0 <= j < |list| && list[j] == t;
    ThreadIsLatest(ms, users, j);
    var p :| 0 <= p < |ms| && Other(ms[p]) == t.username && ms[p].date == t.lastTime && ms[p].message == t.lastMessage;
    NewestFirstMembers(messages);
    var k :| 0 <= k < |messages| && messages[k] == ms[p];
    LatestAmongAll(messages, ms, t.username, t.lastTime);
  }

  /** A bound on the dates of a user's messages in the read list bounds all of them. */
  lemma LatestAmongAll(messages: seq<ContactMessage>, ms: seq<ContactMessage>, u: string, time: int)
    requires forall k :: 0 <= k < |messages| && WithAdmin(messages[k]) ==> messages[k] in ms
    requires forall p :: 0 <= p < |ms| && Other(ms[p]) == u ==> ms[p].date <= time
    ensures forall k :: 0 <= k < |messages| && WithAdmin(messages[k]) && Other(messages[k]) == u ==>
      messages[k].date <= time
  {
    forall k | 0 <= k < |messages| && WithAdmin(messages[k]) && Other(messages[k]) == u
      ensures messages[k].date <= time
    {
      var q :| 0 <= q < |ms| && ms[q] == messages[k];
    }
  }

  // ---------------------------------------------------------------------------
  // One conversation

  /** A message between the user and the administrator, in either direction. */
  predicate Between(m: ContactMessage, username: string) {
    (m.sender == username && m.receiver == "admin") || (m.sender == "admin" && m.receiver == username)
  }

  function OldestFirstKey(m: ContactMessage): int { m.date }

  /** The participant as `GET /chats/:username` reports it: the name only for an existing account. */
  datatype ChatPeer = ChatPeer(username: string, name: Option<string>)

  /** The stored messages between `username` and "admin", in store order. */
  function Exchanged(messages: seq<ContactMessage>, username: string): seq<ContactMessage> {
    Seqs.Filter(messages, (m: ContactMessage) => Between(m, username))
  }

  /** `GET /chats/:username`: the peer and the conversation, oldest first. */
  function Conversation(messages: seq<ContactMessage>, users: UserCollection, username: string): (r: (ChatPeer, seq<ContactMessage>))
    reads users
    ensures r.0.username == username && (r.0.name.Some? <==> users.FindByUsername(username).Some?)
    ensures r.0.name.Some? ==>
      var u := users.FindByUsername(username).value;
      r.0.name.value == u.firstName + " " + u.lastName
    ensures Seqs.SortedBy(r.1, OldestFirstKey)
    ensures multiset(r.1) == multiset(Exchanged(messages, username))
    ensures forall i :: 0 <= i < |r.1| ==> r.1[i] in messages && Between(r.1[i], username)
    ensures forall k :: 0 <= k < |messages| && Between(messages[k], username) ==> messages[k] in r.1
  {
    var found := users.FindByUsername(username);
    var peer := ChatPeer(username, if found.Some? then Some(found.value.firstName + " " + found.value.lastName) else None);
    var between := Exchanged(messages, username);
    var sorted := Seqs.SortBy(between, OldestFirstKey);
    Seqs.SortByMembers(between, OldestFirstKey);
    (peer, sorted)
  }

  /** `POST /chats/:username`: an empty message is refused; otherwise it is stored as sent by "admin". */
  method PostMessage(messages: MessageCollection, username: string, message: Option<string>, now: int)
    returns (status: Status, sent: Option<ContactMessage>)
    modifies messages
    ensures !Text.Truthy(message) ==> status == BadRequest && sent.None? && messages.messages == old(messages.messages)
    ensures Text.Truthy(message) ==>
      && status == Ok
      && sent == Some(ContactMessage(now, message.value, "admin", username))
      && messages.messages == old(messages.messages) + [sent.value]
  {
    if !Text.Truthy(message) {
      return BadRequest, None;
    }
    var msg := ContactMessage(now, message.value, "admin", username);
    messages.messages := messages.messages + [msg];
    return Ok, Some(msg);
  }

  /** A reply from the administrator shows up in that user's conversation. */
  lemma PostedMessageInConversation(messages: seq<ContactMessage>, users: UserCollection, username: string,
                                    text: string, now: int)
    ensures ContactMessage(now, text, "admin", username) in
      Conversation(messages + [ContactMessage(now, text, "admin", username)], users, username).1
  {
    var all := messages + [ContactMessage(now, text, "admin", username)];
    assert Between(all[|messages|], username);
  }
}
