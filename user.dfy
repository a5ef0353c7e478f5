/** One attached party (user.go). Only the fields the conversation engine
    reads or sets are kept; the mailbox channel is modelled as the sequence of
    payloads sent into it. */
module Connection {
  import opened Base

  class User {
    /** The party's origin address, fixed when the party attaches. */
    const IP: Bytes
    /** The party's slot in its conversation. */
    var UserId: int64
    /** The id of the party's conversation. */
    var ConvoId: Bytes
    /** Every payload sent to the party's mailbox so far, oldest first. */
    var outbox: seq<Bytes>

    /** A newly attached party: Go's zero values for the slot and the
        conversation id, and nothing sent yet. */
    constructor (ip: Bytes)
      ensures IP == ip && UserId == 0 && ConvoId == [] && outbox == []
    {
      IP := ip;
      UserId := 0;
      ConvoId := [];
      outbox := [];
    }

    /** A send on the mailbox: the payload is delivered once, after every
        earlier one. */
    method Write(data: Bytes)
      modifies this`outbox
      ensures outbox == old(outbox) + [data]
    {
      outbox := outbox + [data];
    }
  }
}
