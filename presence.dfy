/** The server's presence registry: which user is online on which socket.
    The process-wide `onlineUsers` Map becomes the state of a `Registry` object;
    its connection and disconnect handlers become the methods `Connect` and
    `Disconnect`, and every `users:online` broadcast is appended to a ghost log. */
module Presence {
  import opened Wrappers
  import opened Seqs

  type SocketId = string

  /** The `userId` query parameter of a connection handshake: absent, or a string. */
  datatype Query = Missing | Text(s: string)

  /** JavaScript truthiness of the parameter: present and not the empty string. */
  predicate Truthy(q: Query)
    ensures Truthy(q) ==> q.Text? && |Key(q)| > 0
    ensures !Truthy(q) ==> q == Missing || q == Text("")
  {
    q.Text? && q.s != ""
  }

  /** `String(userId)`: the registry key of a truthy parameter. */
  function Key(q: Query): (r: UserId)
    requires q.Text?
    ensures Text(r) == q
  {
    q.s
  }

  /** User `k` is registered and held by socket `sid`. */
  predicate Holds(m: map<UserId, SocketId>, k: UserId, sid: SocketId) {
    k in m && m[k] == sid
  }

  /** No two users are registered with the same socket. */
  ghost predicate Injective(m: map<UserId, SocketId>) {
    forall u, v :: u in m && v in m && u != v ==> m[u] != m[v]
  }

  /** The position, in the Map's iteration order, of the first entry held by `sid`:
      the entry the disconnect scan stops at. */
  function FirstHolder(order: seq<UserId>, m: map<UserId, SocketId>, sid: SocketId): (r: Option<nat>)
    ensures r.Some? ==> r.value < |order| && Holds(m, order[r.value], sid)
    ensures r.Some? ==> forall j :: 0 <= j < r.value ==> !Holds(m, order[j], sid)
    ensures r.None? ==> forall j :: 0 <= j < |order| ==> !Holds(m, order[j], sid)
  {
    FirstIndex(order, k => Holds(m, k, sid))
  }

  /** Each element occurs once. */
  ghost predicate Distinct(s: seq<UserId>) {
    forall a, b :: 0 <= a < b < |s| ==> s[a] != s[b]
  }

  /** Removing position `i` from a sequence without repetitions removes exactly its element. */
  lemma RemoveAtMembers(s: seq<UserId>, i: nat)
    requires i < |s| && Distinct(s)
    ensures Distinct(s[..i] + s[i + 1..])
    ensures forall k :: k in s[..i] + s[i + 1..] <==> k in s && k != s[i]
  {
    var t := s[..i] + s[i + 1..];
    assert forall a :: 0 <= a < |t| ==> t[a] == s[if a < i then a else a + 1];
    forall k | k in s && k != s[i]
      ensures k in t
    {
      var a :| 0 <= a < |s| && s[a] == k;
      assert t[if a < i then a else a - 1] == k;
    }
  }

  /** When every registered key is listed in `order`, the scan finding no holder of `sid`
      means no user is registered on `sid`. */
  lemma NoHolder(order: seq<UserId>, m: map<UserId, SocketId>, sid: SocketId)
    requires forall k :: k in m <==> k in order
    requires FirstHolder(order, m, sid).None?
    ensures sid !in m.Values
  {
    forall k | k in m
      ensures m[k] != sid
    {
      var j :| 0 <= j < |order| && order[j] == k;
      assert !Holds(m, order[j], sid);
    }
  }

  /** Under unique socket ids, deleting the one holder of `sid` deletes exactly the users
      registered on `sid`, and keeps the registry injective. */
  lemma RemoveHolder(m: map<UserId, SocketId>, k: UserId, sid: SocketId)
    requires Holds(m, k, sid) && Injective(m)
    ensures forall u :: u in m - {k} <==> u in m && m[u] != sid
    ensures Injective(m - {k})
  {
  }

  /** What the disconnect handler's scan-and-delete means for the map: at most one entry
      goes, no value changes, a socket holding nothing changes nothing, and under unique
      socket ids exactly the users on the closing socket go offline. */
  lemma CloseFacts(m: map<UserId, SocketId>, order: seq<UserId>, sid: SocketId,
                   m': map<UserId, SocketId>, order': seq<UserId>)
    requires Distinct(order) && forall k :: k in m <==> k in order
    requires match FirstHolder(order, m, sid)
      case None => m' == m && order' == order
      case Some(i) => m' == m - {order[i]} && order' == order[..i] + order[i + 1..]
    ensures Distinct(order') && forall k :: k in m' <==> k in order'
    ensures sid !in m.Values ==> m' == m && order' == order
    ensures forall k :: k in m' ==> k in m && m'[k] == m[k]
    ensures forall k :: k in m && m[k] != sid ==> k in m'
    ensures Injective(m) ==> forall k :: k in m' <==> k in m && m[k] != sid
    ensures Injective(m) ==> Injective(m')
  {
    match FirstHolder(order, m, sid)
    case None =>
      NoHolder(order, m, sid);
    case Some(i) =>
      RemoveAtMembers(order, i);
      if Injective(m) {
        RemoveHolder(m, order[i], sid);
      }
  }

  /** Registering a user again replaces the earlier registration entirely. */
  lemma Overwrite(m: map<UserId, SocketId>, k: UserId, v: SocketId, w: SocketId)
    ensures m[k := v][k := w] == m[k := w]
  {
  }

  /** Registering a user on socket `v` puts no other socket into use. */
  lemma StillUnused(m: map<UserId, SocketId>, k: UserId, v: SocketId, w: SocketId)
    requires w !in m.Values && w != v
    ensures w !in m[k := v].Values
  {
    var m' := m[k := v];
    forall u | u in m'
      ensures m'[u] != w
    {
      if u != k {
        assert m[u] in m.Values;
      }
    }
  }

  /** The registry. A JavaScript Map is an ordered dictionary: `onlineUsers` holds its
      entries and `order` its keys in insertion order, which is the order the disconnect
      scan visits them in. */
  class Registry {
    var onlineUsers: map<UserId, SocketId>
    var order: seq<UserId>
    /** The payload of every `users:online` broadcast so far, oldest first. */
    ghost var broadcasts: seq<set<UserId>>

    /** `order` lists each key once, and the last broadcast is the current online set
        (nobody is online before the first one). */
    ghost predicate Valid()
      reads this
    {
      && Distinct(order)
      && (forall k :: k in onlineUsers <==> k in order)
      && (if |broadcasts| == 0 then onlineUsers == map[]
          else broadcasts[|broadcasts| - 1] == onlineUsers.Keys)
    }

    constructor ()
      ensures Valid()
      ensures onlineUsers == map[] && order == [] && broadcasts == []
    {
      onlineUsers := map[];
      order := [];
      broadcasts := [];
    }

    /** The connection handler: a truthy `userId` registers (or re-registers) that user
        on socket `sid` and broadcasts the online set; any other handshake is ignored. */
    method Connect(userId: Query, sid: SocketId)
      requires Valid()
      modifies this
      ensures Valid()
      ensures !Truthy(userId) ==>
        onlineUsers == old(onlineUsers) && order == old(order) && broadcasts == old(broadcasts)
      ensures Truthy(userId) ==> onlineUsers == old(onlineUsers)[Key(userId) := sid]
      ensures Truthy(userId) ==>
        order == if Key(userId) in old(onlineUsers) then old(order) else old(order) + [Key(userId)]
      ensures Truthy(userId) ==> broadcasts == old(broadcasts) + [onlineUsers.Keys]
      ensures Injective(old(onlineUsers)) && sid !in old(onlineUsers).Values ==> Injective(onlineUsers)
    {
      if Truthy(userId) {
        var key := Key(userId);
        if key !in onlineUsers {
          order := order + [key];
        }
        onlineUsers := onlineUsers[key := sid];
        broadcasts := broadcasts + [onlineUsers.Keys];
        if Injective(old(onlineUsers)) && sid !in old(onlineUsers).Values {
          forall u, v | u in onlineUsers && v in onlineUsers && u != v
            ensures onlineUsers[u] != onlineUsers[v]
          {
            if u != key && v != key {
            } else if u == key {
              assert old(onlineUsers)[v] in old(onlineUsers).Values;
            } else {
              assert old(onlineUsers)[u] in old(onlineUsers).Values;
            }
          }
        }
      }
    }

    /** The disconnect handler of socket `sid`: scan the entries in order, delete the
        first one held by `sid` and stop; then broadcast the online set, whether or not
        anything was deleted. */
    method Disconnect(sid: SocketId)
      requires Valid()
      modifies this
      ensures Valid()
      ensures match FirstHolder(old(order), old(onlineUsers), sid)
        case None => onlineUsers == old(onlineUsers) && order == old(order)
        case Some(i) =>
          && onlineUsers == old(onlineUsers) - {old(order)[i]}
          && order == old(order)[..i] + old(order)[i + 1..]
      ensures broadcasts == old(broadcasts) + [onlineUsers.Keys]
      ensures sid !in old(onlineUsers).Values ==> onlineUsers == old(onlineUsers) && order == old(order)
      ensures forall k :: k in onlineUsers ==> k in old(onlineUsers) && onlineUsers[k] == old(onlineUsers)[k]
      ensures forall k :: k in old(onlineUsers) && old(onlineUsers)[k] != sid ==> k in onlineUsers
      ensures Injective(old(onlineUsers)) ==>
        forall k :: k in onlineUsers <==> k in old(onlineUsers) && old(onlineUsers)[k] != sid
      ensures Injective(old(onlineUsers)) ==> Injective(onlineUsers)
    {
      var i := 0;
      while i < |order|
        invariant 0 <= i <= |order|
        invariant onlineUsers == old(onlineUsers) && order == old(order) && broadcasts == old(broadcasts)
        invariant forall j :: 0 <= j < i ==> !Holds(onlineUsers, order[j], sid)
      {
        var uid := order[i];
        if onlineUsers[uid] == sid {
          assert FirstHolder(order, onlineUsers, sid) == Some(i);
          onlineUsers := onlineUsers - {uid};
          order := order[..i] + order[i + 1..];
          break;
        }
        i := i + 1;
      }
      CloseFacts(old(onlineUsers), old(order), sid, onlineUsers, order);
      broadcasts := broadcasts + [onlineUsers.Keys];
    }

    /** `getReceiverSocketId`: the socket a user is registered on, if any. */
    method GetReceiverSocketId(receiverId: UserId) returns (r: Option<SocketId>)
      ensures r.Some? <==> receiverId in onlineUsers
      ensures r.Some? ==> r.value == onlineUsers[receiverId]
    {
      r := if receiverId in onlineUsers then Some(onlineUsers[receiverId]) else None;
    }
  }

  /** A user connects on socket `a`, reconnects on socket `b` before `a` closes, and then
      `a` closes: the user stays online on `b`. When socket ids are unique, the late close
      of `a` leaves the registry exactly as the reconnect left it. */
  method ReconnectThenStaleClose(r: Registry, u: UserId, a: SocketId, b: SocketId)
    requires r.Valid() && u != "" && a != b
    modifies r
    ensures r.Valid()
    ensures u in r.onlineUsers && r.onlineUsers[u] == b
    ensures Injective(old(r.onlineUsers)) && a !in old(r.onlineUsers).Values && b !in old(r.onlineUsers).Values ==>
      r.onlineUsers == old(r.onlineUsers)[u := b] && Injective(r.onlineUsers)
  {
    ghost var before := r.onlineUsers;
    r.Connect(Text(u), a);
    if b !in before.Values {
      StillUnused(before, u, a, b);
    }
    r.Connect(Text(u), b);
    Overwrite(before, u, a, b);
    if a !in before.Values {
      StillUnused(before, u, b, a);
    }
    r.Disconnect(a);
  }
}
