/**
 The connection to the Graphite server, reduced to what the rest of the program sees of it: each send
 attempt succeeds or fails, and a successful one puts text on the wire.
 */
module Clients {
  import opened Messages

  /** The outcome of each connection attempt, in order: the network's choice. */
  type Link = nat -> bool

  class Client {
    const link: Link
    var attempts: nat
    /** Everything written to the socket so far. */
    var wire: string
    ghost var sent: seq<Message>

    ghost predicate Valid()
      reads this
    {
      wire == Payload(sent)
    }

    constructor (link: Link)
      ensures Valid() && attempts == 0 && sent == [] && this.link == link
    {
      this.link := link;
      attempts, wire, sent := 0, "", [];
    }

    /** Nothing to send counts as a failure, and no attempt is made. */
    method Send(messages: seq<Message>) returns (ok: bool)
      requires Valid()
      modifies this
      ensures Valid()
      ensures ok == (messages != [] && link(old(attempts)))
      ensures attempts == old(attempts) + (if messages == [] then 0 else 1)
      ensures sent == old(sent) + (if ok then messages else [])
    {
      if messages == [] {
        return false;
      }
      ok := link(attempts);
      attempts := attempts + 1;
      if !ok {
        return;
      }
      var text := BuildText(messages);
      PayloadAppend(sent, messages);
      wire := wire + text;
      sent := sent + messages;
    }
  }

  method BuildText(messages: seq<Message>) returns (text: string)
    ensures text == Payload(messages)
  {
    text := "";
    for i := 0 to |messages|
      invariant text + Payload(messages[i..]) == Payload(messages)
    {
      PayloadStep(messages[i..]);
      text := text + (Serialize(messages[i]) + "\n");
    }
  }

  lemma PayloadStep(messages: seq<Message>)
    requires messages != []
    ensures Payload(messages) == (Serialize(messages[0]) + "\n") + Payload(messages[1..])
  {
  }

  lemma {:induction false} PayloadAppend(a: seq<Message>, b: seq<Message>)
    ensures Payload(a + b) == Payload(a) + Payload(b)
  {
    if a == [] {
      assert a + b == b;
    } else {
      assert (a + b)[1..] == a[1..] + b;
      PayloadAppend(a[1..], b);
    }
  }
}
