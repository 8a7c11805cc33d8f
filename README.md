# Presence registry and chat store of a realtime chat app

This project models the two stateful parts of a one-to-one realtime chat application.

- **The server's presence registry** (`backend/src/lib/socket.js`). A process-wide
  JavaScript `Map` named `onlineUsers` maps a user id to the id of that user's socket.
  - A connection whose handshake carries a truthy `userId` registers
    `String(userId) -> socket.id`. A later connection of the same user overwrites the
    earlier one. The handler then broadcasts the list of online users as `users:online`.
  - A socket's disconnect handler scans the entries in insertion order. It deletes the
    first entry held by the closing socket and stops. It then always broadcasts again.
  - `getReceiverSocketId` looks a user up.

  In the model this is the class `Presence.Registry`. A JavaScript `Map` is an ordered
  dictionary, so the class has two fields. `onlineUsers` is a Dafny `map`. `order`
  lists the keys in insertion order, which is the order the disconnect loop visits them
  in; `Map.set` on a key that is already present keeps its position. Every broadcast is
  appended to the ghost log `broadcasts`. The object invariant `Valid()` ties `order` to
  the keys and says that the last broadcast equals the current online set. `Connect`
  and `Disconnect` keep that invariant. When socket ids are unique, they also keep the
  map injective (no two users on one socket).

- **The client's chat store** (`frontend/src/store/useChatStore.js`). It holds the user
  list (most recently active first), the transcript of the open thread, per-user unread
  counters, the selected user and two loading flags.
  - The store's helpers compute new values on copies. They are pure functions here:
    `Bump` is `bumpUserToTop`, `Inc` is `incUnread`, `Reset` is `resetUnread`, and
    `OtherParticipant` is the participant choice of the `message:new` handler.
  - The store actions become methods of the class `ChatStore.Store`. Each method
    modifies only the fields that its JavaScript counterpart `set`s.
  - Each HTTP request is an argument of type `Response<T>`: `Success(data)` or
    `Failure`.
  - The local user's id and the realtime socket come from the authentication store.
    They are parameters here: `me: Option<UserId>` and `socket: Socket?`. The socket is
    seen only through the number of its `message:new` listeners.
  - `sendMessage` reads the transcript before its `await` and appends the confirmed
    record to that snapshot. It is therefore split into `BeginSendMessage`, which takes
    the snapshot, and `CompleteSendMessage`, which runs after the `await`.
    `PushDuringSend` shows the consequence: a message of the open thread pushed during
    the `await` is dropped from the transcript.

Two behaviours of the code are worth stating outright:

- Closing a socket that holds no entry changes nothing, but still broadcasts
  (`socket.js:36`), so `Disconnect` always appends to `broadcasts`.
- `resetUnread` writes 0 only over a nonzero counter (`useChatStore.js:36-38`), so an
  absent key stays absent.

## Model

| member | source | states |
|---|---|---|
| `Seqs.FirstIndex` | frontend/src/store/useChatStore.js:19 | `findIndex`: the result is the first position whose element satisfies the predicate. `None` (the -1) means that no element does. |
| `Presence.FirstHolder` | backend/src/lib/socket.js:29-33 | The entry the disconnect scan stops at is the first one, in Map order, whose socket is the closing one. `None` means that no registered user is on that socket. |
| `Presence.RemoveAtMembers` | backend/src/lib/socket.js:31 | Deleting one key from the Map's key order leaves the other keys, each once, and nothing else. |
| `Presence.NoHolder` | backend/src/lib/socket.js:29-34 | A scan that finds no entry for the socket means that socket is not a value of the map. |
| `Presence.RemoveHolder` | backend/src/lib/socket.js:30-31 | With unique socket ids, deleting the user on the closing socket deletes exactly the users on that socket and keeps the map injective. |
| `Presence.CloseFacts` | backend/src/lib/socket.js:29-34 | Scan-and-delete keeps the key order free of repeats and in step with the keys. It never changes a value and removes only an entry of the closing socket. A socket holding nothing changes nothing. With unique ids, exactly the users on that socket go and injectivity is kept. |
| `Presence.Overwrite` | backend/src/lib/socket.js:22 | A second `set` for the same user replaces the first registration entirely. |
| `Presence.StillUnused` | backend/src/lib/socket.js:22 | Registering a user on one socket puts no other socket into use. |
| `Presence.Truthy` | backend/src/lib/socket.js:18-20 | `if (userId)`: a handshake parameter is truthy only when present with a non-empty key. The only falsy parameters are a missing one and the empty string. |
| `Presence.Key` | backend/src/lib/socket.js:21 | `String(userId)` of a string parameter is that string: the key converts back to the same parameter. |
| `Presence.Registry.constructor` | backend/src/lib/socket.js:15 | The registry starts empty, with nothing broadcast, and satisfies its invariant. |
| `Presence.Registry.Connect` | backend/src/lib/socket.js:17-26 | A truthy `userId` sets `onlineUsers[String(userId)]` to the new socket and changes no other key (last writer wins). A new key goes to the end of the Map order and an existing key keeps its place. One broadcast of the new key set follows. A missing or empty `userId` changes nothing and broadcasts nothing. A fresh socket id keeps the map injective. |
| `Presence.Registry.Disconnect` | backend/src/lib/socket.js:28-37 | Deletes at most one entry: the first, in Map order, held by the closing socket. Every other entry is unchanged. A socket that holds no entry changes nothing, but a broadcast of the key set follows in every case. With unique ids, exactly the users on that socket go offline, and injectivity is kept. |
| `Presence.Registry.GetReceiverSocketId` | backend/src/lib/socket.js:41-43 | Returns the socket mapped at the user id if there is one and nothing otherwise. It does not change the registry. |
| `Presence.ReconnectThenStaleClose` | backend/src/lib/socket.js:20-34 | After connect(U, A), connect(U, B) and then the close of A, U is still online on B. With unique socket ids, the stale close leaves the map exactly as the reconnect left it. |
| `ChatStore.IndexOfUser` | frontend/src/store/useChatStore.js:19 | `users.findIndex((u) => u._id === userId)`: a found index holds the first user with the id. The result is -1 (`None`) exactly when no user has the id. |
| `ChatStore.IndexOfUserIsFirst` | frontend/src/store/useChatStore.js:19 | The index `findIndex` returns is the first user with that id. |
| `ChatStore.MoveToFrontPermutes` | frontend/src/store/useChatStore.js:21-22 | Splicing out one user and unshifting it keeps the multiset of users. |
| `ChatStore.OnlyFirst` | frontend/src/store/useChatStore.js:19 | The index `findIndex` returns is the only position that holds the first user with the id. |
| `ChatStore.Bump` | frontend/src/store/useChatStore.js:17-24 | `bumpUserToTop`: the result is a permutation of the list (same length and multiset). The first user with the id comes first, followed by the others in their original order. A list without that id is unchanged. |
| `ChatStore.BumpAtFront` | frontend/src/store/useChatStore.js:17-24 | Bumping the user already at the front leaves the list unchanged. |
| `ChatStore.BumpIdempotent` | frontend/src/store/useChatStore.js:17-24 | Bumping a user a second time changes nothing. |
| `ChatStore.BumpLastOfThree` | frontend/src/store/useChatStore.js:19-22 | Bumping U in `[A, B, U]` gives `[U, A, B]`. |
| `ChatStore.Inc` | frontend/src/store/useChatStore.js:27-31 | `incUnread`: the counter becomes (old value, or 0 when absent) + 1. Every other key and counter is unchanged. |
| `ChatStore.Reset` | frontend/src/store/useChatStore.js:34-40 | `resetUnread`: afterwards the counter is 0 or absent. The key set and every other counter are unchanged. A zero or absent counter leaves the map untouched. |
| `ChatStore.ResetUndoesInc` | frontend/src/store/useChatStore.js:27-40 | Resetting after an increment gives 0 for that user and restores every other counter. |
| `ChatStore.OtherParticipant` | frontend/src/store/useChatStore.js:93-97 | The result is the receiver if the local user sent the message, and the sender otherwise (also when nobody is logged in). It is one of the two participants, and it is the local user only for a message to oneself. |
| `ChatStore.IsOpenThread` | frontend/src/store/useChatStore.js:99 | `isCurrentThread`: with no user selected no thread is open. With a user selected, the thread is open exactly for that user's id. |
| `ChatStore.Socket.Off` | frontend/src/store/useChatStore.js:89 | `socket.off("message:new")` removes every `message:new` listener. |
| `ChatStore.Socket.On` | frontend/src/store/useChatStore.js:91 | `socket.on("message:new", …)` adds one listener. |
| `ChatStore.Store.constructor` | frontend/src/store/useChatStore.js:6-14 | Initial state: empty lists, no selection, flags down, no counters, and the open-thread-is-read invariant. |
| `ChatStore.Store.BumpUserToTop` | frontend/src/store/useChatStore.js:17-24 | Only `users` changes, and it becomes the bumped list. |
| `ChatStore.Store.IncUnread` | frontend/src/store/useChatStore.js:27-31 | Only `unreadCounts` changes, and only at that user, which rises by one. |
| `ChatStore.Store.ResetUnread` | frontend/src/store/useChatStore.js:34-40 | Only `unreadCounts` changes: a nonzero counter for that user drops to 0. |
| `ChatStore.Store.GetUsers` | frontend/src/store/useChatStore.js:43-53 | On success, `users` is replaced by the fetched list, so repeating the call does not append. On failure it is unchanged. `isUsersLoading` is false afterwards in both cases. |
| `ChatStore.Store.GetMessages` | frontend/src/store/useChatStore.js:56-66 | On success, `messages` is replaced by the fetched history, never appended to. On failure it is unchanged. `isMessagesLoading` is false afterwards in both cases. |
| `ChatStore.Store.BeginSendMessage` | frontend/src/store/useChatStore.js:69-70 | The snapshot holds the selected user and transcript as they were before the await. The store is not changed. |
| `ChatStore.Store.CompleteSendMessage` | frontend/src/store/useChatStore.js:71-80 | On success, `messages` becomes snapshot ++ [server record] and the recipient is bumped in the current list. With no selected user or a failed request, `messages` and `users` are unchanged. |
| `ChatStore.Store.SendMessage` | frontend/src/store/useChatStore.js:69-80 | When nothing runs during the await, success appends the confirmed record and bumps the selected user. Failure, including having no selected user, changes neither `messages` nor `users`. |
| `ChatStore.Store.OnNewMessage` | frontend/src/store/useChatStore.js:91-111 | If the other participant is the selected user, `messages` gains exactly the new message at the end and the counters are unchanged. Otherwise `messages` is unchanged and only that participant's counter rises by 1. Either way that participant is bumped, and the open thread stays read. |
| `ChatStore.Store.SubscribeToMessages` | frontend/src/store/useChatStore.js:84-91 | With a socket, exactly one `message:new` listener is registered afterwards, however many there were. Without a socket, nothing changes. |
| `ChatStore.Store.UnsubscribeFromMessages` | frontend/src/store/useChatStore.js:115-119 | With a socket, no `message:new` listener is left. Without one, nothing changes. |
| `ChatStore.Store.SetSelectedUser` | frontend/src/store/useChatStore.js:122-128 | Sets `selectedUser` and clears the transcript at once. For a user with an id, that user's counter is reset to 0 (or left absent) and the history fetch replaces the transcript on success or leaves it empty on failure. The open thread is read afterwards. |
| `ChatStore.PushDuringSend` | frontend/src/store/useChatStore.js:70-76 | A message of the open thread pushed while `sendMessage` awaits is lost. The transcript ends as the pre-send snapshot ++ [confirmed record]. |
| `ChatStore.SubscribeTwiceThenUnsubscribe` | frontend/src/store/useChatStore.js:84-119 | Subscribing twice and then unsubscribing leaves no listener. |

## Left out

- Construction of the Express app, the HTTP server and the socket.io server, and the CORS settings (`socket.js:1-13`): framework plumbing.
- `socket.join(stringUserId)` (`socket.js:23`): room membership is transport state with no effect on the registry.
- The order of the key array in a broadcast: each payload is modelled as a set of user ids.
- A handshake `userId` given as an array (a repeated query parameter, where `String` joins the values with commas): the parameter is either absent or one string.
- `String(receiverId)` applied to a non-string id: receiver ids are strings here, so the coercion is the identity.
- Registering the disconnect handler on each connection: `Disconnect` can be called for any socket id, including sockets that never registered a user.
- The message-delivery controller that calls `getReceiverSocketId` (`socket.js:40`): message.controller.js is not part of this model.
- axios requests and `toast.error` notifications: each request is its outcome, and the notification is dropped. The body sent by `sendMessage` is not modelled, because the store only uses the record the server returns.
- zustand's `create`/`set`/`get` reactivity and `useAuthStore`: the local user id and the socket are parameters.
- Async interleavings other than the `sendMessage` snapshot. The `getMessages` call started by `setSelectedUser` runs to completion inside `SetSelectedUser`. A loading flag is observable only after an action, when it is false again.
- Fields of users and messages other than their ids are carried but have no effect on the model.
- JavaScript's coercion of object keys in `unreadCounts`: user ids are already strings.
