/** The client's chat store: the user list (most recently active first), the transcript
    of the open thread, per-user unread counters and the selected user. The store's
    helpers that compute a new list or counter map are pure functions here; the store
    actions that `set` fields become methods of a `Store` object, each HTTP request
    an argument saying how it settled, and the realtime socket a `Socket` object that
    only counts its `message:new` listeners. */
module ChatStore {
  import opened Wrappers
  import opened Seqs

  /** A user summary as the directory returns it; `id` is its `_id`. */
  datatype User = User(id: UserId, fullName: string)

  /** A message record as the server returns or pushes it. */
  datatype Message = Message(senderId: UserId, receiverId: UserId, text: string)

  /** Position `i` holds the first user with this id. */
  ghost predicate FirstWithId(users: seq<User>, id: UserId, i: nat) {
    i < |users| && users[i].id == id && forall j :: 0 <= j < i ==> users[j].id != id
  }

  /** Some user in the list has this id. */
  ghost predicate HasUser(users: seq<User>, id: UserId) {
    exists j :: 0 <= j < |users| && users[j].id == id
  }

  /** `users.findIndex((u) => u._id === id)`: the position of the first user with this
      id, or `None` (the -1) when no user has it. */
  function IndexOfUser(users: seq<User>, id: UserId): (r: Option<nat>)
    ensures r.Some? ==> FirstWithId(users, id, r.value)
    ensures r.None? <==> !HasUser(users, id)
  {
    FirstIndex(users, (u: User) => u.id == id)
  }

  /** The user `findIndex` finds is the first one with that id. */
  lemma IndexOfUserIsFirst(users: seq<User>, id: UserId, i: nat)
    requires FirstWithId(users, id, i)
    ensures IndexOfUser(users, id) == Some(i)
  {
  }

  /** Taking the user at `i` out and putting it in front permutes the list. */
  lemma MoveToFrontPermutes(users: seq<User>, i: nat)
    requires i < |users|
    ensures multiset([users[i]] + users[..i] + users[i + 1..]) == multiset(users)
  {
    assert users == users[..i] + [users[i]] + users[i + 1..];
  }

  /** The index `findIndex` returns is the only position holding the first user with the id. */
  lemma OnlyFirst(users: seq<User>, id: UserId, i: nat)
    requires IndexOfUser(users, id) == Some(i)
    ensures forall k: nat :: FirstWithId(users, id, k) ==> k == i
  {
    forall k: nat | FirstWithId(users, id, k)
      ensures k == i
    {
      IndexOfUserIsFirst(users, id, k);
    }
  }

  /** `bumpUserToTop`: move the first user with this id to the front, keeping the others
      in their order; a list without that id is left as it is. */
  function Bump(users: seq<User>, id: UserId): (r: seq<User>)
    ensures |r| == |users| && multiset(r) == multiset(users)
    ensures !HasUser(users, id) ==> r == users
    ensures forall i: nat :: FirstWithId(users, id, i) ==> r[0] == users[i] && r[1..] == users[..i] + users[i + 1..]
  {
    match IndexOfUser(users, id)
    case None =>
      users
    case Some(i) =>
      MoveToFrontPermutes(users, i);
      OnlyFirst(users, id, i);
      var r := [users[i]] + users[..i] + users[i + 1..];
      assert r[1..] == users[..i] + users[i + 1..];
      r
  }

  /** A user already at the front stays there, and nothing else moves. */
  lemma BumpAtFront(users: seq<User>, id: UserId)
    requires |users| > 0 && users[0].id == id
    ensures Bump(users, id) == users
  {
    assert IndexOfUser(users, id) == Some(0);
    assert [users[0]] + users[..0] + users[1..] == users;
  }

  /** Bumping the same user twice is bumping once: the first bump already put a user
      with that id at the front. */
  lemma BumpIdempotent(users: seq<User>, id: UserId)
    ensures Bump(Bump(users, id), id) == Bump(users, id)
  {
    match IndexOfUser(users, id)
    case None =>
    case Some(i) =>
      assert FirstWithId(users, id, i);
      BumpAtFront(Bump(users, id), id);
  }

  /** Bumping the last of three users with distinct ids: `[A, B, U]` becomes `[U, A, B]`. */
  lemma BumpLastOfThree(a: User, b: User, u: User)
    requires a.id != u.id && b.id != u.id
    ensures Bump([a, b, u], u.id) == [u, a, b]
  {
    assert FirstWithId([a, b, u], u.id, 2);
  }

  /** `incUnread`: the counter of `id` becomes its old value (0 when absent) plus one. */
  function Inc(counts: map<UserId, nat>, id: UserId): (r: map<UserId, nat>)
    ensures r.Keys == counts.Keys + {id}
    ensures id in counts ==> r[id] == counts[id] + 1
    ensures id !in counts ==> r[id] == 1
    ensures forall k :: k in counts && k != id ==> r[k] == counts[k]
  {
    counts[id := (if id in counts then counts[id] else 0) + 1]
  }

  /** `resetUnread`: a nonzero counter becomes 0; a zero or absent one is left alone, so an
      absent key stays absent. */
  function Reset(counts: map<UserId, nat>, id: UserId): (r: map<UserId, nat>)
    ensures r.Keys == counts.Keys
    ensures id in r ==> r[id] == 0
    ensures forall k :: k in counts && k != id ==> r[k] == counts[k]
    ensures id !in counts || counts[id] == 0 ==> r == counts
  {
    if id in counts && counts[id] != 0 then counts[id := 0] else counts
  }

  /** Reading a thread after a message arrived for it leaves its counter at 0 and every
      other counter as it was before the message. */
  lemma ResetUndoesInc(counts: map<UserId, nat>, id: UserId)
    ensures Reset(Inc(counts, id), id) == counts[id := 0]
  {
  }

  /** The other participant of a message: its receiver when the local user sent it,
      otherwise its sender (also when nobody is logged in). */
  function OtherParticipant(me: Option<UserId>, m: Message): (r: UserId)
    ensures r == m.senderId || r == m.receiverId
    ensures me == Some(r) ==> m.senderId == r && m.receiverId == r
    ensures me.Some? && m.senderId == me.value ==> r == m.receiverId
    ensures me != Some(m.senderId) ==> r == m.senderId
  {
    if me == Some(m.senderId) then m.receiverId else m.senderId
  }

  /** `isCurrentThread`: a user is selected and has this id. With nobody selected no
      thread is open, and a selected user's thread is open for that user's id only. */
  predicate IsOpenThread(selected: Option<User>, id: UserId)
    ensures selected.None? ==> !IsOpenThread(selected, id)
    ensures selected.Some? ==> (IsOpenThread(selected, id) <==> id == selected.value.id)
  {
    selected.Some? && selected.value.id == id
  }

  /** What `sendMessage` reads from the store before it awaits the request. */
  datatype PendingSend = PendingSend(selectedUser: Option<User>, messages: seq<Message>)

  /** The realtime socket, seen only through its `message:new` listeners. */
  class Socket {
    var newMessageListeners: nat

    /** A socket that already carries `listeners` handlers. The chat store never creates
        its socket (the authentication store does); this constructor only lets a
        scenario start from a socket in any state. */
    constructor (listeners: nat)
      ensures newMessageListeners == listeners
    {
      newMessageListeners := listeners;
    }

    /** `socket.off("message:new")`: without a handler argument it removes them all. */
    method Off()
      modifies this
      ensures newMessageListeners == 0
    {
      newMessageListeners := 0;
    }

    /** `socket.on("message:new", handler)`: registers one more listener. */
    method On()
      modifies this
      ensures newMessageListeners == old(newMessageListeners) + 1
    {
      newMessageListeners := newMessageListeners + 1;
    }
  }

  class Store {
    var messages: seq<Message>
    var users: seq<User>
    var selectedUser: Option<User>
    var isUsersLoading: bool
    var isMessagesLoading: bool
    var unreadCounts: map<UserId, nat>

    constructor ()
      ensures messages == [] && users == [] && selectedUser == None
      ensures !isUsersLoading && !isMessagesLoading && unreadCounts == map[]
      ensures SelectedThreadIsRead()
    {
      messages := [];
      users := [];
      selectedUser := None;
      isUsersLoading := false;
      isMessagesLoading := false;
      unreadCounts := map[];
    }

    /** The open thread has no unread messages (a user whose id is empty opens no thread). */
    ghost predicate SelectedThreadIsRead()
      reads this
    {
      selectedUser.Some? && selectedUser.value.id != "" ==>
        selectedUser.value.id !in unreadCounts || unreadCounts[selectedUser.value.id] == 0
    }

    method BumpUserToTop(userId: UserId)
      modifies this`users
      ensures users == Bump(old(users), userId)
    {
      users := Bump(users, userId);
    }

    method IncUnread(userId: UserId)
      modifies this`unreadCounts
      ensures unreadCounts == Inc(old(unreadCounts), userId)
    {
      unreadCounts := Inc(unreadCounts, userId);
    }

    method ResetUnread(userId: UserId)
      modifies this`unreadCounts
      ensures unreadCounts == Reset(old(unreadCounts), userId)
    {
      unreadCounts := Reset(unreadCounts, userId);
    }

    /** `getUsers`: a successful fetch replaces the list, a failed one keeps it; the
        loading flag is down afterwards either way. */
    method GetUsers(response: Response<seq<User>>)
      modifies this`users, this`isUsersLoading
      ensures users == if response.Success? then response.data else old(users)
      ensures !isUsersLoading
    {
      isUsersLoading := true;
      if response.Success? {
        users := response.data;
      }
      isUsersLoading := false;
    }

    /** `getMessages`: a successful fetch replaces the transcript (a repeated fetch does
        not append), a failed one keeps it; the loading flag is down afterwards. */
    method GetMessages(response: Response<seq<Message>>)
      modifies this`messages, this`isMessagesLoading
      ensures messages == if response.Success? then response.data else old(messages)
      ensures !isMessagesLoading
    {
      isMessagesLoading := true;
      if response.Success? {
        messages := response.data;
      }
      isMessagesLoading := false;
    }

    /** The part of `sendMessage` before its await: it reads the selected user and the
        transcript. */
    method BeginSendMessage() returns (pending: PendingSend)
      ensures pending.selectedUser == selectedUser && pending.messages == messages
    {
      pending := PendingSend(selectedUser, messages);
    }

    /** The part of `sendMessage` after its await. Without a selected user the request
        is never made (reading its id throws) and nothing changes; a failed request
        changes nothing either. A confirmed record is appended to the transcript read
        BEFORE the await, and the recipient is bumped in the current user list. */
    method CompleteSendMessage(pending: PendingSend, response: Response<Message>)
      modifies this`messages, this`users
      ensures pending.selectedUser.Some? && response.Success? ==>
        && messages == pending.messages + [response.data]
        && users == Bump(old(users), pending.selectedUser.value.id)
      ensures pending.selectedUser.None? || response.Failure? ==>
        messages == old(messages) && users == old(users)
    {
      if pending.selectedUser.Some? && response.Success? {
        messages := pending.messages + [response.data];
        BumpUserToTop(pending.selectedUser.value.id);
      }
    }

    /** `sendMessage` when nothing else runs during its await. */
    method SendMessage(response: Response<Message>)
      modifies this`messages, this`users
      ensures selectedUser.Some? && response.Success? ==>
        && messages == old(messages) + [response.data]
        && users == Bump(old(users), selectedUser.value.id)
      ensures selectedUser.None? || response.Failure? ==>
        messages == old(messages) && users == old(users)
    {
      var pending := BeginSendMessage();
      CompleteSendMessage(pending, response);
    }

    /** The `message:new` handler: a message of the open thread is appended to the
        transcript, any other one raises its sender's (or recipient's) unread counter by
        one; either way that user is bumped to the top. */
    method OnNewMessage(me: Option<UserId>, newMessage: Message)
      modifies this`messages, this`unreadCounts, this`users
      ensures var other := OtherParticipant(me, newMessage);
        if IsOpenThread(selectedUser, other) then
          messages == old(messages) + [newMessage] && unreadCounts == old(unreadCounts)
        else
          messages == old(messages) && unreadCounts == Inc(old(unreadCounts), other)
      ensures users == Bump(old(users), OtherParticipant(me, newMessage))
      ensures old(SelectedThreadIsRead()) ==> SelectedThreadIsRead()
    {
      var other := OtherParticipant(me, newMessage);
      if IsOpenThread(selectedUser, other) {
        messages := messages + [newMessage];
      } else {
        IncUnread(other);
      }
      BumpUserToTop(other);
    }

    /** `subscribeToMessages`: with a socket, drop every `message:new` listener and add
        the store's one, so that exactly one is registered however often this runs;
        without a socket, nothing happens. */
    method SubscribeToMessages(socket: Socket?)
      modifies socket
      ensures socket != null ==> socket.newMessageListeners == 1
    {
      if socket == null {
        return;
      }
      socket.Off();
      socket.On();
    }

    /** `unsubscribeFromMessages`: with a socket, no `message:new` listener is left. */
    method UnsubscribeFromMessages(socket: Socket?)
      modifies socket
      ensures socket != null ==> socket.newMessageListeners == 0
    {
      if socket == null {
        return;
      }
      socket.Off();
    }

    /** `setSelectedUser`: select the user (or none) and clear the transcript at once;
        for a user with an id, also clear that user's unread counter and load the
        thread's history. The open thread is read afterwards in every case. */
    method SetSelectedUser(user: Option<User>, history: Response<seq<Message>>)
      modifies this`selectedUser, this`messages, this`unreadCounts, this`isMessagesLoading
      ensures selectedUser == user
      ensures SelectedThreadIsRead()
      ensures user.Some? && user.value.id != "" ==>
        && unreadCounts == Reset(old(unreadCounts), user.value.id)
        && messages == (if history.Success? then history.data else [])
        && !isMessagesLoading
      ensures user.None? || user.value.id == "" ==>
        && unreadCounts == old(unreadCounts)
        && messages == []
        && isMessagesLoading == old(isMessagesLoading)
    {
      selectedUser := user;
      messages := [];
      if user.Some? && user.value.id != "" {
        ResetUnread(user.value.id);
        GetMessages(history);
      }
    }
  }

  /** A message of the open thread pushed while `sendMessage` awaits its response is
      lost: the confirmed record is appended to the transcript read before the await. */
  method PushDuringSend(store: Store, me: Option<UserId>, pushed: Message, record: Message)
    requires IsOpenThread(store.selectedUser, OtherParticipant(me, pushed))
    modifies store
    ensures store.messages == old(store.messages) + [record]
    ensures store.unreadCounts == old(store.unreadCounts)
  {
    var pending := store.BeginSendMessage();
    store.OnNewMessage(me, pushed);
    store.CompleteSendMessage(pending, Success(record));
  }

  /** Subscribing any number of times leaves exactly one listener; unsubscribing then
      leaves none. */
  method SubscribeTwiceThenUnsubscribe(store: Store, socket: Socket)
    modifies socket
    ensures socket.newMessageListeners == 0
  {
    store.SubscribeToMessages(socket);
    store.SubscribeToMessages(socket);
    assert socket.newMessageListeners == 1;
    store.UnsubscribeFromMessages(socket);
  }
}
