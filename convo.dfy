/** A conversation (convo.go): two slots, the unread messages, and the stop
    signal of its keepalive task. */
module Conversation {
  import opened Base
  import opened Util
  import opened Connection

  const Slash: Bytes := ['/' as byte]
  /** Leading marker of a new-message line for the party that sent it. */
  const SelfMarker: Bytes := [' ' as byte, ' ' as byte]
  /** Leading marker of a new-message line for the other party. */
  const PeerMarker: Bytes := ['+' as byte, ' ' as byte]

  /** The link to a message: base URL, conversation id, "/", message id. */
  function MessageLink(url: Bytes, convoId: Bytes, messageId: Bytes): Bytes
  {
    url + convoId + Slash + messageId
  }

  /** The new-message line an occupant receives. */
  function MessageNotice(self: bool, link: Bytes): Bytes
  {
    (if self then SelfMarker else PeerMarker) + link
  }

  /** A client reads who sent a message from the first two bytes of its
      new-message line alone: the mark is "self" exactly for the sender. */
  lemma MessageNoticeMarks(self: bool, link: Bytes)
    ensures MessageNotice(self, link)[..2] == SelfMarker <==> self
    ensures MessageNotice(self, link)[2..] == link
  {
  }

  class Convo {
    /** The id under which the conversation is registered. */
    const ConvoId: Bytes
    /** The two slots; `null` is an empty slot. */
    var Users: seq<User?>
    /** The unread messages, by message id. */
    var Messages: map<Bytes, Bytes>
    /** Whether the keepalive task has been told to stop. */
    var Stopped: bool

    /** Two slots, and no party in both of them. */
    ghost predicate Valid()
      reads this`Users
    {
      && |Users| == 2
      && (Users[0] != null && Users[1] != null ==> Users[0] != Users[1])
    }

    /** The parties in the slots. */
    ghost function Occupants(): set<User>
      reads this`Users
    {
      set u: User | u in Users
    }

    /** The number of occupied slots. */
    ghost function Count(): nat
      reads this`Users
      requires |Users| == 2
    {
      (if Users[0] != null then 1 else 0) + (if Users[1] != null then 1 else 0)
    }

    /** The conversation a creator opens: the creator in slot 0, slot 1 empty,
        no messages, keepalive running. */
    constructor (convoId: Bytes, creator: User)
      ensures ConvoId == convoId && Users == [creator, null]
      ensures Messages == map[] && !Stopped
      ensures Valid() && Count() == 1
    {
      ConvoId := convoId;
      Users := [creator, null];
      Messages := map[];
      Stopped := false;
    }

    /** Stores `data` under a new id made from the clock reading `now` with
        `data` as salt. Fails, storing nothing, when the clock cannot be
        serialised or when the id is already taken. */
    method CreateMessage(data: Bytes, now: Result<Bytes>) returns (r: Result<Bytes>)
      modifies this`Messages
      ensures r.Ok? <==> NewId(now, data).Ok? && NewId(now, data).value !in old(Messages)
      ensures r.Ok? ==> r == NewId(now, data) && Messages == old(Messages)[r.value := data]
      ensures r.Ok? ==> ReadMessage(r.value) == Some(data)
      ensures r.Err? ==> Messages == old(Messages)
      ensures r.Err? ==> r.error == if now.Err? then now.error else MessageIdOverwrite
    {
      var id := NewId(now, data);
      if id.Err? {
        return Err(id.error);
      }
      var messageId := id.value;
      if messageId in Messages {
        return Err(MessageIdOverwrite);
      }
      Messages := Messages[messageId := data];
      return Ok(messageId);
    }

    /** The unread message with id `messageId`, or nothing (Go's nil slice)
        when there is none. */
    function ReadMessage(messageId: Bytes): (r: Option<Bytes>)
      reads this`Messages
      ensures r.Some? <==> messageId in Messages
      ensures r.Some? ==> r.value == Messages[messageId]
    {
      if messageId in Messages then Some(Messages[messageId]) else None
    }

    /** Stores a message and sends each occupant one new-message line, marked
        "self" for an occupant whose origin is the sender's `ip` and "from
        peer" otherwise. When the message cannot be stored, nobody is told. */
    method AddMessage(data: Bytes, ip: Bytes, url: Bytes, now: Result<Bytes>) returns (r: Outcome)
      requires Valid()
      modifies this`Messages, Occupants()`outbox
      ensures Users == old(Users)
      ensures r.Pass? <==> NewId(now, data).Ok? && NewId(now, data).value !in old(Messages)
      ensures r.Fail? ==> r.error == if now.Err? then now.error else MessageIdOverwrite
      ensures r.Fail? ==> Messages == old(Messages)
      ensures r.Fail? ==> forall u | u in Occupants() :: u.outbox == old(u.outbox)
      ensures r.Pass? ==>
        var messageId := NewId(now, data).value;
        && Messages == old(Messages)[messageId := data]
        && forall i | 0 <= i < 2 && Users[i] != null ::
             Users[i].outbox == old(Users[i].outbox)
               + [MessageNotice(Users[i].IP == ip, MessageLink(url, ConvoId, messageId))]
    {
      var created := CreateMessage(data, now);
      if created.Err? {
        return Fail(created.error);
      }
      var messageId := created.value;
      if Users[0] != null {
        Users[0].Write(MessageNotice(Users[0].IP == ip, MessageLink(url, ConvoId, messageId)));
      }
      if Users[1] != null {
        Users[1].Write(MessageNotice(Users[1].IP == ip, MessageLink(url, ConvoId, messageId)));
      }
      return Pass;
    }

    /** Sends `data` once to every occupant. Fails, sending nothing, when both
        slots are empty. */
    method Broadcast(data: Bytes) returns (r: Outcome)
      requires Valid()
      modifies Occupants()`outbox
      ensures Users == old(Users) && Messages == old(Messages)
      ensures r.Fail? <==> Count() == 0
      ensures r.Fail? ==> r.error == NoUsers
      ensures forall i | 0 <= i < 2 && Users[i] != null ::
                Users[i].outbox == old(Users[i].outbox) + [data]
    {
      if Users[0] == null && Users[1] == null {
        return Fail(NoUsers);
      }
      if Users[0] != null {
        Users[0].Write(data);
      }
      if Users[1] != null {
        Users[1].Write(data);
      }
      return Pass;
    }
  }
}
