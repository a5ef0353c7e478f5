/** How the request handlers drive the registry (main.go:69-121, 122-147 and
    153-184), replayed for one conversation: a party creates it, a second
    party joins, the joiner writes a message, the creator reads it, and reads
    it again. */
module Session {
  import opened Base
  import opened Util
  import opened Connection
  import opened Conversation
  import opened Registry

  /** Leading marker of the conversation-created line. */
  const CreatedMarker: Bytes := [':' as byte, ' ' as byte]

  /** The handler for "create": a creator opens a conversation and is sent
      its link (main.go:71-83). */
  method Create(url: Bytes, creatorIP: Bytes, t1: Bytes)
    returns (store: Room, c: Convo, creator: User)
    ensures fresh(store) && fresh(c) && fresh(creator)
    ensures store.Valid()
    ensures var convoId := NewId(Ok(t1), []).value;
      && store.Convos == map[convoId := c] && c.ConvoId == convoId
      && c.Users == [creator, null] && c.Messages == map[]
      && creator.IP == creatorIP
      && creator.outbox == [CreatedMarker + url + convoId]
  {
    store := new Room();
    creator := new User(creatorIP);
    var created := store.CreateConvo(creator, Ok(t1));
    var convoId := created.value;
    c := store.Convos[convoId];
    assert store.Convos == map[convoId := c];
    creator.Write(CreatedMarker + url + convoId);
  }

  /** The handler for "join": a second party checks that the conversation is
      live and not full, joins it, and is sent the creator's origin
      (main.go:91-113). The joiner is a newly attached party, so it is in no
      conversation yet. */
  method Join(store: Room, c: Convo, creator: User, joinerIP: Bytes)
    returns (joiner: User)
    requires store.Valid() && c.ConvoId in store.Convos && store.Convos[c.ConvoId] == c
    requires c.Users == [creator, null]
    modifies c`Users, creator`outbox
    ensures fresh(joiner) && store.Valid()
    ensures c.Users == [creator, joiner] && joiner.IP == joinerIP
    ensures creator.outbox == old(creator.outbox) + [JoinNotice(joinerIP)]
    ensures joiner.outbox == [JoinNotice(creator.IP)]
  {
    joiner := new User(joinerIP);
    var convoId := c.ConvoId;
    // a fresh party cannot be a member of any registered conversation
    assert joiner !in store.Members();
    assert store.IsConvo(convoId) && !store.IsConvoFull(convoId);
    var joined := store.JoinConvo(joiner, convoId);
    joiner.Write(store.OtherUser(convoId, joiner.UserId));
  }

  /** The handlers for "write" and "read": the joiner, whose origin is an
      occupant's, writes `body` (main.go:153-184); the creator reads the
      message it was told about, then asks for it again (main.go:122-147). */
  method Exchange(store: Room, c: Convo, creator: User, joiner: User,
                  url: Bytes, body: Bytes, t2: Bytes)
    returns (first: Result<Bytes>, second: Result<Bytes>)
    requires store.Valid() && c.ConvoId in store.Convos && store.Convos[c.ConvoId] == c
    requires c.Users == [creator, joiner] && c.Messages == map[]
    modifies c`Messages, creator`outbox, joiner`outbox
    ensures var link := MessageLink(url, c.ConvoId, NewId(Ok(t2), body).value);
      && creator.outbox == old(creator.outbox)
           + [MessageNotice(creator.IP == joiner.IP, link), ReadNotice(link)]
      && joiner.outbox == old(joiner.outbox) + [MessageNotice(true, link), ReadNotice(link)]
      && first == Ok(body)
      && second == Err(MessageMissing)
  {
    var convoId := c.ConvoId;
    RegisteredIsValid(convoId, c);
    assert c.Occupants() == {creator, joiner};
    assert store.IPExists(convoId, joiner.IP);
    var written := store.AddMessage(body, convoId, joiner.IP, url, Ok(t2));
    var messageId := NewId(Ok(t2), body).value;

    assert store.IPExists(convoId, creator.IP);
    first := store.ReadMessage(convoId, messageId, url);
    second := store.ReadMessage(convoId, messageId, url);
  }

  /** The lines each party's stream carries, and the two reads' outcomes, when
      a party creates a conversation, a second party joins, the joiner writes
      `body`, and the creator reads it twice. `t1` and `t2` are the
      serialised clock readings taken when the conversation and the message
      are made. The second read finds nothing: messages are read once. */
  method CreateJoinWriteRead(
    url: Bytes, creatorIP: Bytes, joinerIP: Bytes, body: Bytes, t1: Bytes, t2: Bytes)
    returns (creatorLines: seq<Bytes>, joinerLines: seq<Bytes>,
             first: Result<Bytes>, second: Result<Bytes>)
    ensures
      var convoId := NewId(Ok(t1), []).value;
      var link := MessageLink(url, convoId, NewId(Ok(t2), body).value);
      && creatorLines == [CreatedMarker + url + convoId, JoinNotice(joinerIP),
                          MessageNotice(creatorIP == joinerIP, link), ReadNotice(link)]
      && joinerLines == [JoinNotice(creatorIP), MessageNotice(true, link), ReadNotice(link)]
      && first == Ok(body)
      && second == Err(MessageMissing)
  {
    var store, c, creator := Create(url, creatorIP, t1);
    var joiner := Join(store, c, creator, joinerIP);
    first, second := Exchange(store, c, creator, joiner, url, body, t2);
    creatorLines, joinerLines := creator.outbox, joiner.outbox;
  }
}
