# convo.space conversation engine, in Dafny

convo.space is a two-party, terminal-friendly chat server. A party opens a
conversation and gets a link. A second party joins the conversation through
that link. Each party then keeps one long-lived streaming response open, and
the server writes one-line notices into it: the conversation was created,
someone joined, someone left, a message arrived, a message was read, and a
keepalive ping. A message body is never pushed. A party is sent a link to the
message, and the first fetch of that link consumes it: the body is handed out
once and then deleted.

This project models the engine behind that protocol:

- the registry of live conversations (`Registry.Room`, from `room.go`);
- a conversation with its two slots and its unread messages
  (`Conversation.Convo`, from `convo.go`);
- the two pure helpers of `util.go` (`Util.OtherUserId` and `Util.NewId`);
- the part of an attached party that the engine touches (`Connection.User`,
  from `user.go`).

It proves what these promise. Every registered conversation has two slots and
at least one occupant. Every occupant knows its slot and its conversation.
Joins fill the free slot and tell only the party already there. The last
departure removes the conversation. A message is handed out at most once.
Identifiers are the FNV-1a 32-bit digest of the clock bytes and a salt,
rendered in decimal. `Session` replays the request handlers of `main.go` for
a whole conversation, end to end.

Modelling conventions:

- Go strings and byte slices are `Bytes` (`seq<byte>`).
- Go's `int` is a 64-bit `int64` newtype, and `^` and `+` are written out with
  two's-complement wrap-around.
- A Go `(value, error)` pair is a `Result`, and a lone `error` is an `Outcome`.
  A nil lookup is an `Option`.
- The mailbox channel of a party is `User.outbox`, the sequence of payloads
  sent into it, oldest first. A send on the channel is an append.
- The conversation's `Stop` channel is the flag `Convo.Stopped`. The send that
  stops the keepalive task sets it.
- The clock reading is a parameter, `now: Result<Bytes>`. It is either the
  bytes `time.Now().MarshalBinary()` produces or the error it returns. The
  server's base URL is the parameter `url`.
- Every `Room` method holds the registry's one mutex while it reads or
  changes the registry, so each is one atomic step on the heap.
  `CreateConvo` reads the clock before taking the lock (room.go:156-160).
  The parameter `now` reflects this: the reading is fixed before the step.
- A fact that every caller establishes before calling the registry becomes
  that method's `requires`: the conversation is live, and the slot named is
  occupied. The request handlers of `main.go` check that the conversation is
  live. The disconnect cleanup (user.go:64-72) calls `DeleteUser` with the slot
  and conversation id that `CreateConvo` or `JoinConvo` gave the party
  (room.go:127-131, 169-171).
- The registry invariant is `Room.Valid`, built on `Registry.Registered`. Every
  `Room` method except `IsConvo` requires it. `IsConvo` states what it gives
  under `Valid() ==>` instead. Each method that changes state re-establishes
  it.

Three behaviours of the code worth noting:

- A join into a conversation with no occupant fails with the same error
  ("this is bad") as a join into a full one (room.go:124-135). The code does
  not tell the two cases apart.
- The delete deferred in `Room.ReadMessage` (room.go:88-92) also runs when
  the message is absent. It is harmless there.
- The code tests a message for presence by comparing the stored body with
  nil (convo.go:76, room.go:95). Bodies come from reading a request body,
  which never yields nil, so the model takes presence to be membership of the
  key. A stored empty body
  therefore counts as present.

## Model

| member | source | states |
|---|---|---|
| Util.OtherUserId | util.go:11-13 | for every slot id except the two lowest int64 values, the result is 1 - userId; it never equals its input |
| Util.OtherUserIdSlots | util.go:11-13 | slot 0's other is slot 1, and slot 1's other is slot 0 |
| Util.OtherUserIdInvolution | util.go:11-13 | applying OtherUserId twice gives the input back, for every int64, including the two values where Go's `+` wraps |
| Util.OtherUserIdSlotRange | util.go:11-13 | the result is a slot index (0 or 1) exactly when the input is one |
| Util.AddWrap | util.go:12 | Go's int64 `+`: the result is congruent to the true sum modulo 2^64, and equals it when the sum is in range |
| Util.FnvFoldSnoc | util.go:37-38 | hashing `data + [b]` is one FNV-1a round (xor the octet, multiply by the prime modulo 2^32) on the hash of `data` |
| Util.FnvFoldAppend | util.go:37-38 | the hash state is streaming: hashing `a + b` equals hashing `b` from the state reached after `a` |
| Util.FnvTestVectors | util.go:27-38 | the digest uses the FNV-1a 32-bit offset basis and prime: the empty input gives 0x811c9dc5 and "a" gives 0xe40c292c |
| Util.Decimal | util.go:38 | `%d` of an unsigned value is non-empty, all digits, and has no leading zero unless the value is 0 |
| Util.ParseDecimalOfDecimal | util.go:38 | reading the decimal rendering back yields the rendered value |
| Util.DecimalOfParseDecimal | util.go:38 | every canonical digit string is the rendering of its value, so rendering is onto the canonical strings |
| Util.DecimalInjective | util.go:38 | two values have the same rendering exactly when they are equal |
| Util.DecimalLength | util.go:38 | a value below 10^k renders in at most k digits |
| Util.DecimalLength32 | util.go:38 | a 32-bit digest renders in at most ten digits |
| Util.NewId | util.go:23-39 | fails exactly when serialising the clock fails, passing that error through; otherwise gives a canonical decimal string of at most ten digits whose value is the FNV-1a 32 digest of the clock bytes followed by the salt |
| Util.NewIdContinuesTimestamp | util.go:23-39 | the salt is hashed on from the clock bytes' digest; with a nil salt (conversation ids) the id is the decimal digest of the clock bytes alone |
| Util.DigestRenderingInjective | util.go:38 | two 32-bit digests print alike under `%d` exactly when they are equal |
| Util.NewIdCollision | util.go:23-39 | two successful ids are equal exactly when the 32-bit digests of their inputs are equal |
| Connection.User.constructor | user.go:28-35 | a new party has its origin address, slot 0, no conversation id yet, and nothing sent to it |
| Connection.User.Write | user.go:90-92 | one send delivers the payload once, after every earlier payload |
| Conversation.MessageNoticeMarks | convo.go:87-103 | the first two bytes of a new-message line mark it "self" exactly for the sender, and the rest of the line is the message link |
| Conversation.Convo.constructor | room.go:173-179 | a new conversation has the creator in slot 0, slot 1 empty, no messages, and its keepalive running |
| Conversation.Convo.CreateMessage | convo.go:49-77 | succeeds exactly when a new id can be made and is not taken; on success stores the body under `NewId(now, body)` and nothing else, and the conversation's ReadMessage then yields the body for that id; on failure stores nothing and reports the clock error or the id overwrite |
| Conversation.Convo.AddMessage | convo.go:82-117 | stores exactly when CreateMessage would; on success, each occupied slot receives one new-message line with the link, marked "self" exactly when its origin is the sender's; on failure, nobody receives anything; the slots never change |
| Conversation.Convo.Broadcast | convo.go:122-137 | fails with "no users" exactly when both slots are empty; every occupant receives the payload exactly once; slots and messages do not change |
| Registry.RegisteredIsValid | room.go:117-143 | a registered conversation never has one party in both slots and has at least one occupant |
| Registry.Room.constructor | main.go:30 | the server starts with an empty, valid registry |
| Registry.Room.IsConvo | room.go:190-196 | a conversation is live exactly when its id is a key of the registry; under the invariant, exactly when some registered conversation carries that id, and a live conversation knows its id, has its two slots, has not been stopped and has at least one occupant (what the handlers rely on after the check) |
| Registry.Room.IsConvoFull | room.go:198-210 | a live conversation is full exactly when both slots are taken, and is otherwise held by exactly one party |
| Registry.Room.IPExists | room.go:16-32 | true exactly when some occupant of the conversation has the given origin address |
| Registry.Room.OtherUser | room.go:34-47 | for a slot whose opposite is occupied, the slot is 0 or 1, the opposite party is a different party, and the line is "> " followed by that party's origin |
| Registry.Room.DeleteUser | room.go:49-79 | empties the slot; if the conversation is now empty, stops its keepalive and removes it from the registry without telling anyone; otherwise the remaining party alone receives one "< " line naming the departing origin; the invariant is kept |
| Registry.Room.ReadMessage | room.go:81-106 | succeeds exactly when the message is present; then returns its body, removes it, and sends every occupant one "- " read receipt with its link; an absent id fails with "message doesn't exist" and changes nothing; the invariant is kept |
| Registry.Room.AddMessage | room.go:108-114 | the conversation's AddMessage on the live conversation, with the same success condition, error and notifications; the invariant is kept |
| Registry.Room.JoinConvo | room.go:116-143 | sets the party's conversation id; succeeds exactly when one slot is taken; then the party takes the free slot (slot 0 when only slot 1 is taken), learns its slot, and the party already there alone receives one "> " line naming the newcomer, leaving the conversation full; otherwise fails with "this is bad" and nothing else changes; the registry keys and the invariant are kept |
| Registry.Room.CreateConvo | room.go:145-187 | succeeds exactly when an id can be made from the clock and is not live; then registers a fresh conversation under it with the creator in slot 0, slot 1 empty and no messages, and tells the creator its slot and conversation; otherwise reports the clock error or "convo id overwrite" and changes nothing; the invariant is kept |
| Session.Create | main.go:70-88 | the create handler on a fresh server registers one conversation with the creator alone in it and sends the creator ": " followed by the link |
| Session.Join | main.go:89-121 | the join handler, on a live conversation whose creator is alone in slot 0 and in a registry holding any other conversations, fills slot 1 with the newly attached party; the creator receives "> " naming the joiner, and the joiner receives "> " naming the creator |
| Session.Exchange | main.go:122-185 | a message written by the joiner and read by the creator puts a new-message line and then a read receipt in both streams; the first read yields the body, and a second read finds nothing |
| Session.CreateJoinWriteRead | main.go:70-185 | for a whole conversation (create, join, write, read, read again), the complete list of lines each party's stream carries apart from keepalive lines, in order, and the two reads' outcomes |

## Left out

- `Convo.Ping` (convo.go:28-39), the keepalive task started at room.go:182: it needs a timer and a goroutine. Only the flag that stops it (`Convo.Stopped`) is modelled. So no stream in the model carries the "." line the task sends every 30 seconds, and `Session` lists every line except these.
- Concurrency: the registry mutex is modelled by making each `Room` method one atomic step. The model does not capture that `Ping` calls `Broadcast` without holding that mutex, nor that `main.go` checks `IsConvo`/`IsConvoFull` and then calls `JoinConvo` in separate critical sections.
- Channel rendezvous: a send on a party's unbuffered channel blocks until its stream reads it. The model appends to `outbox`, so a send never blocks. It also does not model the mutex being held during that wait.
- Session.Create and Session.Join: `main.go` sends the creator's link and the joiner's first line from separate goroutines. The model assumes each of those sends lands before the next handler runs.
- Conversation.Convo.Broadcast: does not state that slot 0 is written before slot 1 (convo.go:129-134). With one outbox per party, the model states what each stream receives but not the order between two parties' streams.
- Conversation.Convo.AddMessage: does not state that slot 0 is notified before slot 1 (convo.go:109-114), for the same reason as Broadcast.
- `NewUser`, `User.Listen` and the HTTP/streaming side of `user.go`: this is I/O. Only the fields the engine reads or writes (origin, slot, conversation id, mailbox) are modelled.
- `GetIP` (util.go:17-20): address parsing belongs to the standard library. Origins are taken as already-cleaned `Bytes`.
- `time.Now().MarshalBinary` is not part of this model. Its outcome is the parameter `now`.
- The routing, user-agent check, landing page, TLS and flags of `main.go` are not part of this model. Panics on an error return are out too: in `Session`, each error the handlers would panic on is returned as a value.
- Registry.Room.OtherUser, Registry.Room.DeleteUser and Registry.Room.IsConvoFull: with an absent conversation or an empty slot, Go would dereference nil and panic. These members instead require what their callers establish: the handlers of `main.go` for OtherUser and IsConvoFull, and for DeleteUser the disconnect cleanup of user.go:64-72, whose slot and conversation id came from CreateConvo or JoinConvo.
- Util.OtherUserId: Go's `int` is taken to be 64 bits wide. On a 32-bit platform the wrap-around point differs, but the results for the slot ids 0 and 1 do not.
- `println` diagnostics in `CreateConvo` and `DeleteUser`: they are output only.
