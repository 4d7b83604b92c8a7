/**
 The timer: hands everything buffered to the client from time to time.
 */
module Timers {
  import opened Messages
  import opened Clients
  import opened Store
  import opened GlobalBuffers
  import opened Delivery

  class Timer {
    const buffer: GlobalBuffer
    const client: Client

    /** The timer and the global buffer talk to the same client. */
    ghost predicate Valid()
      reads buffer, client, buffer.client, buffer.buffers.Values
    {
      buffer.Valid() && client == buffer.client
    }

    constructor (buffer: GlobalBuffer, client: Client)
      requires buffer.Valid() && client == buffer.client
      ensures Valid() && this.buffer == buffer && this.client == client
    {
      this.buffer, this.client := buffer, client;
    }

    /** Adds messages back one by one. */
    method PutBack(batch: seq<Message>)
      requires Valid()
      modifies buffer, client, buffer.buffers.Values
      ensures Valid() && fresh(buffer.Repr() - old(buffer.Repr()))
      ensures buffer.View() == AddAll(buffer.policy, client.link, old(buffer.View()), batch)
    {
      hide Store.Add, AddAll, WellFormed, QueueOk, Payload;
      ghost var before := buffer.View();
      AddAllNone(buffer.policy, client.link, before);
      assert batch[..0] == [] && batch[..|batch|] == batch;
      for i := 0 to |batch|
        invariant Valid() && fresh(buffer.Repr() - old(buffer.Repr()))
        invariant buffer.View() == AddAll(buffer.policy, client.link, before, batch[..i])
      {
        AddAllStep(buffer.policy, client.link, before, batch[..i], batch[i]);
        assert batch[..i + 1] == batch[..i] + [batch[i]];
        var _ := buffer.Add(batch[i]);
      }
    }

    method Iteration()
      requires Valid()
      modifies buffer, client, buffer.buffers.Values
      ensures Valid() && fresh(buffer.Repr() - old(buffer.Repr()))
      ensures buffer.View() == TimerRound(buffer.policy, client.link, old(buffer.View()))
    {
      hide Store.Add, AddAll, WellFormed, QueueOk, Payload, Contents, EmptiedQueues, TimerRound, Buffered, Drained;
      hide GlobalBuffer.BufferOk, GlobalBuffer.Held;
      ghost var before := buffer.View();
      RoundInCases(buffer.policy, client.link, before);
      var batch := buffer.GetAll([]);
      assert batch == Buffered(before);
      assert buffer.View() == Drained(before);
      DrainedKeeps(before);
      var delivered := client.Send(batch);
      assert before.sent + [] == before.sent;
      ghost var tried := Drained(before).(attempts := before.attempts + if batch == [] then 0 else 1);
      if !delivered {
        assert buffer.View() == tried;
        PutBack(batch);
      } else {
        assert buffer.View() == tried.(sent := before.sent + batch);
      }
    }
  }
}
