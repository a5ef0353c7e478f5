/** The registry of live conversations (room.go). Every method of the source
    runs under one global mutex, so each is modelled as one atomic step. */
module Registry {
  import opened Base
  import opened Util
  import opened Connection
  import opened Conversation

  /** Leading marker of a read-receipt line. */
  const ReadMarker: Bytes := ['-' as byte, ' ' as byte]
  /** Leading marker of a party-joined line. */
  const JoinMarker: Bytes := ['>' as byte, ' ' as byte]
  /** Leading marker of a party-left line. */
  const LeaveMarker: Bytes := ['<' as byte, ' ' as byte]

  function ReadNotice(link: Bytes): Bytes
  {
    ReadMarker + link
  }

  function JoinNotice(ip: Bytes): Bytes
  {
    JoinMarker + ip
  }

  function LeaveNotice(ip: Bytes): Bytes
  {
    LeaveMarker + ip
  }

  /** What the registry keeps true of the conversation `c` it holds under the
      key `k`: `c` knows its key, has its two slots, has at least one
      occupant, its keepalive has not been stopped, and every occupant knows
      its slot and its conversation. */
  ghost predicate Registered(k: Bytes, c: Convo)
    reads c`Users, c`Stopped, c.Occupants()`UserId, c.Occupants()`ConvoId
  {
    && c.ConvoId == k
    && |c.Users| == 2
    && !c.Stopped
    && (c.Users[0] != null || c.Users[1] != null)
    && forall i | 0 <= i < 2 && c.Users[i] != null ::
         c.Users[i].UserId as int == i && c.Users[i].ConvoId == k
  }

  /** A registered conversation never holds one party in both slots, because
      the party's `UserId` names one slot. */
  lemma RegisteredIsValid(k: Bytes, c: Convo)
    requires Registered(k, c)
    ensures c.Valid() && 1 <= c.Count()
  {
  }

  class Room {
    /** Every active conversation, by conversation id. */
    var Convos: map<Bytes, Convo>

    /** Every party in a slot of a registered conversation. */
    ghost function Members(): set<User>
      reads this`Convos, Convos.Values`Users
    {
      set c, u | c in Convos.Values && u in c.Occupants() :: u
    }

    ghost predicate Valid()
      reads this`Convos, Convos.Values`Users, Convos.Values`Stopped
      reads Members()`UserId, Members()`ConvoId
    {
      forall k | k in Convos :: Registered(k, Convos[k])
    }

    /** The empty registry the server starts with. */
    constructor ()
      ensures Valid() && Convos == map[]
    {
      Convos := map[];
    }

    /** Whether a conversation with id `convoId` is live. Under the registry
        invariant a live id is carried by exactly the conversation registered
        under it, which is still running and has at least one occupant, so a
        positive answer is what a join, read or write relies on. */
    function IsConvo(convoId: Bytes): (r: bool)
      reads this, Convos.Values, Members()
      ensures r <==> convoId in Convos
      ensures Valid() ==> (r <==> exists c | c in Convos.Values :: c.ConvoId == convoId)
      ensures Valid() && r ==>
        && Convos[convoId].ConvoId == convoId
        && |Convos[convoId].Users| == 2
        && !Convos[convoId].Stopped
        && 1 <= Convos[convoId].Count()
    {
      convoId in Convos
    }

    /** Whether both slots of the live conversation `convoId` are taken. A
        live conversation that is not full has exactly one occupant. */
    function IsConvoFull(convoId: Bytes): (r: bool)
      requires Valid() && convoId in Convos
      reads this, Convos.Values, Members()
      ensures r <==> Convos[convoId].Count() == 2
      ensures !r <==> Convos[convoId].Count() == 1
    {
      Convos[convoId].Users[0] != null && Convos[convoId].Users[1] != null
    }

    /** Whether `ip` is the origin of an occupant of the live conversation
        `convoId`: the only check made before a read or a write. */
    function IPExists(convoId: Bytes, ip: Bytes): (r: bool)
      requires Valid() && convoId in Convos
      reads this, Convos.Values, Members()
      ensures r <==> exists u | u in Convos[convoId].Occupants() :: u.IP == ip
    {
      if Convos[convoId].Users[0] != null && Convos[convoId].Users[0].IP == ip then
        true
      else if Convos[convoId].Users[1] != null && Convos[convoId].Users[1].IP == ip then
        true
      else
        false
    }

    /** The party-joined line naming the origin of whoever is in the slot
        other than `userId`, which must be occupied. */
    function OtherUser(convoId: Bytes, userId: int64): (r: Bytes)
      requires Valid() && convoId in Convos
      requires 0 <= OtherUserId(userId) < 2
      requires Convos[convoId].Users[OtherUserId(userId)] != null
      reads this, Convos.Values, Members()
      ensures 0 <= userId < 2
      ensures r == JoinNotice(Convos[convoId].Users[1 - userId].IP)
      ensures Convos[convoId].Users[1 - userId] != Convos[convoId].Users[userId]
    {
      OtherUserIdSlotRange(userId);
      RegisteredIsValid(convoId, Convos[convoId]);
      JoinNotice(Convos[convoId].Users[OtherUserId(userId)].IP)
    }
    /** Empties slot `userId`. When that was the last occupant, the
        keepalive is stopped and the conversation leaves the registry without
        anyone being told; otherwise the remaining occupant is sent one
        party-left line naming the departing origin. */
    method DeleteUser(convoId: Bytes, userId: int64)
      requires Valid() && convoId in Convos
      requires 0 <= userId < 2 && Convos[convoId].Users[userId] != null
      modifies this`Convos, {Convos[convoId]}`Users, {Convos[convoId]}`Stopped
      modifies Convos[convoId].Occupants()`outbox
      ensures Valid()
      ensures
        var c, leaving, other :=
          old(Convos[convoId]), old(Convos[convoId].Users[userId]),
          old(Convos[convoId].Users[1 - userId]);
        && c.Users == old(c.Users)[userId := null]
        && leaving.outbox == old(leaving.outbox)
        && (other == null ==> Convos == old(Convos) - {convoId} && c.Stopped)
        && (other != null ==>
              && Convos == old(Convos) && !c.Stopped
              && other.outbox == old(other.outbox) + [LeaveNotice(leaving.IP)])
    {
      var c := Convos[convoId];
      RegisteredIsValid(convoId, c);
      var ip := c.Users[userId].IP;
      c.Users := c.Users[userId := null];
      if c.Users[0] == null && c.Users[1] == null {
        c.Stopped := true;
        Convos := Convos - {convoId};
        return;
      }
      c.Users[OtherUserId(userId)].Write(LeaveNotice(ip));
    }

    /** Hands out the unread message `messageId` once: its bytes are
        returned, every occupant is sent one read-receipt line, and the
        message is gone. An unknown id changes nothing and tells nobody. */
    method ReadMessage(convoId: Bytes, messageId: Bytes, url: Bytes) returns (r: Result<Bytes>)
      requires Valid() && convoId in Convos
      modifies {Convos[convoId]}`Messages, Convos[convoId].Occupants()`outbox
      ensures Valid()
      ensures var c := Convos[convoId];
        && (r.Ok? <==> messageId in old(c.Messages))
        && (r.Ok? ==>
              && r.value == old(c.Messages[messageId])
              && c.Messages == old(c.Messages) - {messageId}
              && forall i | 0 <= i < 2 && c.Users[i] != null ::
                   c.Users[i].outbox == old(c.Users[i].outbox)
                     + [ReadNotice(MessageLink(url, convoId, messageId))])
        && (r.Err? ==>
              && r.error == MessageMissing
              && c.Messages == old(c.Messages)
              && forall u | u in c.Occupants() :: u.outbox == old(u.outbox))
    {
      var c := Convos[convoId];
      RegisteredIsValid(convoId, c);
      if c.ReadMessage(messageId).None? {
        // the deferred delete runs on this path too, on an absent key
        c.Messages := c.Messages - {messageId};
        return Err(MessageMissing);
      }
      var _ := c.Broadcast(ReadNotice(MessageLink(url, convoId, messageId)));
      var data := c.ReadMessage(messageId).value;
      c.Messages := c.Messages - {messageId};
      return Ok(data);
    }

    /** Stores a message in the live conversation `convoId` and tells both
        occupants, as the conversation's own AddMessage does. */
    method AddMessage(data: Bytes, convoId: Bytes, ip: Bytes, url: Bytes, now: Result<Bytes>)
      returns (r: Outcome)
      requires Valid() && convoId in Convos
      modifies {Convos[convoId]}`Messages, Convos[convoId].Occupants()`outbox
      ensures Valid()
      ensures var c := Convos[convoId];
        && (r.Pass? <==> NewId(now, data).Ok? && NewId(now, data).value !in old(c.Messages))
        && (r.Fail? ==>
              && r.error == (if now.Err? then now.error else MessageIdOverwrite)
              && c.Messages == old(c.Messages)
              && forall u | u in c.Occupants() :: u.outbox == old(u.outbox))
        && (r.Pass? ==>
              var messageId := NewId(now, data).value;
              && c.Messages == old(c.Messages)[messageId := data]
              && forall i | 0 <= i < 2 && c.Users[i] != null ::
                   c.Users[i].outbox == old(c.Users[i].outbox)
                     + [MessageNotice(c.Users[i].IP == ip, MessageLink(url, convoId, messageId))])
    {
      RegisteredIsValid(convoId, Convos[convoId]);
      r := Convos[convoId].AddMessage(data, ip, url, now);
    }

    /** Puts `user` in the one free slot of the live conversation `convoId`:
        slot 0 when only slot 1 is taken, slot 1 when only slot 0 is. The
        occupant already there is sent one party-joined line naming the
        newcomer's origin; the newcomer is sent nothing. With no free slot the
        join fails and only `user.ConvoId` has changed. */
    method JoinConvo(user: User, convoId: Bytes) returns (r: Outcome)
      requires Valid() && convoId in Convos && user !in Members()
      modifies user`ConvoId, user`UserId, {Convos[convoId]}`Users
      modifies Convos[convoId].Occupants()`outbox
      ensures Valid() && Convos == old(Convos)
      ensures user.ConvoId == convoId && user.outbox == old(user.outbox)
      ensures var c := Convos[convoId];
        && (r.Pass? <==> old(c.Count()) == 1)
        && (r.Fail? ==>
              && r.error == NoFreeSlot && old(c.Count()) == 2
              && c.Users == old(c.Users) && user.UserId == old(user.UserId)
              && forall u | u in c.Occupants() :: u.outbox == old(u.outbox))
        && (r.Pass? ==>
              var slot := if old(c.Users[0]) == null then 0 else 1;
              var host := old(c.Users[1 - slot]);
              && user.UserId as int == slot
              && c.Users == old(c.Users)[slot := user]
              && host != null
              && host.outbox == old(host.outbox) + [JoinNotice(user.IP)]
              && IsConvoFull(convoId))
    {
      var c := Convos[convoId];
      RegisteredIsValid(convoId, c);
      // the other conversations share neither their object nor an occupant with this join
      assert forall k | k in Convos && k != convoId ::
        Convos[k] != c && user !in Convos[k].Occupants() && old(Registered(k, Convos[k]));
      user.ConvoId := convoId;
      if c.Users[0] == null && c.Users[1] != null {
        user.UserId := 0;
      } else if c.Users[1] == null && c.Users[0] != null {
        user.UserId := 1;
      } else {
        return Fail(NoFreeSlot);
      }
      var _ := c.Broadcast(JoinNotice(user.IP));
      c.Users := c.Users[user.UserId := user];
      assert Registered(convoId, c);
      forall k | k in Convos ensures Registered(k, Convos[k]) {
        if k != convoId {
          assert old(Registered(k, Convos[k]));
        }
      }
      return Pass;
    }

    /** Opens a conversation for its creator under a new id made from the
        clock reading `now` with an empty salt: the creator takes slot 0, slot
        1 is empty and there are no messages. Fails, changing nothing, when
        the clock cannot be serialised or the id is already live. */
    method CreateConvo(user: User, now: Result<Bytes>) returns (r: Result<Bytes>)
      requires Valid() && user !in Members()
      modifies this`Convos, user`ConvoId, user`UserId
      ensures Valid()
      ensures r.Ok? <==> NewId(now, []).Ok? && NewId(now, []).value !in old(Convos)
      ensures r.Err? ==> r.error == if now.Err? then now.error else ConvoIdOverwrite
      ensures r.Err? ==>
        Convos == old(Convos) && user.ConvoId == old(user.ConvoId) && user.UserId == old(user.UserId)
      ensures r.Ok? ==>
        && r == NewId(now, [])
        && r.value in Convos
        && Convos == old(Convos)[r.value := Convos[r.value]]
        && fresh(Convos[r.value])
        && Convos[r.value].ConvoId == r.value
        && Convos[r.value].Users == [user, null]
        && Convos[r.value].Messages == map[]
        && user.ConvoId == r.value && user.UserId == 0
    {
      var id := NewId(now, []);
      if id.Err? {
        return Err(id.error);
      }
      var convoId := id.value;
      if convoId in Convos {
        return Err(ConvoIdOverwrite);
      }
      assert forall k | k in Convos :: user !in Convos[k].Occupants() && old(Registered(k, Convos[k]));
      user.ConvoId := convoId;
      user.UserId := 0;
      var c := new Convo(convoId, user);
      Convos := Convos[convoId := c];
      return Ok(convoId);
    }
  }
}
