/**
 The global buffer: one message buffer per metric, flushed to the client whenever it fills up.
 */
module GlobalBuffers {
  import opened Messages
  import opened Queues
  import opened MessageBuffers
  import opened Clients
  import opened Store
  import Ordering

  class GlobalBuffer {
    const policy: Policy
    const client: Client
    var buffers: map<string, MessageBuffer>
    ghost var dropped: seq<Message>
    ghost var flushed: map<string, bool>

    ghost predicate BufferOk(kind: string, buffer: MessageBuffer)
      reads buffer
    {
      && kind != ""
      && buffer.Valid()
      && buffer.policy == policy
      && buffer.place == Through(kind)
      && QueueOk(policy, kind, buffer.State())
    }

    ghost predicate Valid()
      reads this`buffers, client, buffers.Values
    {
      && client.Valid()
      && forall k | k in buffers :: BufferOk(k, buffers[k])
    }

    ghost function Held(): map<string, Queue>
      reads this`buffers, buffers.Values
    {
      map k | k in buffers :: buffers[k].State()
    }

    ghost function View(): State
      reads this, client, buffers.Values
    {
      State(Held(), client.attempts, client.sent, dropped, flushed)
    }

    ghost function Repr(): set<object>
      reads this
    {
      {this, client} + buffers.Values
    }

    twostate lemma ReprGrown()
      requires fresh(Repr() - old(Repr()))
      ensures Grown()
    {
      forall b | b in buffers.Values ensures b in old(buffers.Values) || fresh(b) {
        assert b in old(Repr()) || b in Repr() - old(Repr());
      }
    }

    /** There are no sub-buffers but those there were before and new ones. */
    twostate predicate Grown()
      reads this`buffers
    {
      forall b | b in buffers.Values :: b in old(buffers.Values) || fresh(b)
    }

    constructor (policy: Policy, client: Client)
      requires client.Valid()
      ensures Valid() && this.policy == policy && this.client == client
      ensures View() == State(map[], client.attempts, client.sent, [], map[])
    {
      this.policy, this.client := policy, client;
      buffers, dropped, flushed := map[], [], map[];
    }

    /** Two metrics never share a buffer. */
    lemma Separate(kind: string)
      requires Valid() && kind in buffers
      ensures forall k | k in buffers && k != kind :: buffers[k] != buffers[kind]
    {
      forall k | k in buffers && k != kind ensures buffers[k] != buffers[kind] {
        assert BufferOk(k, buffers[k]) && BufferOk(kind, buffers[kind]);
      }
    }

    /** The buffers of the maths pipeline are others. */
    lemma Apart(other: MessageBuffer)
      requires Valid() && other.place.Maths?
      ensures other !in buffers.Values
    {
      forall k | k in buffers ensures buffers[k] != other {
        assert BufferOk(k, buffers[k]);
      }
    }

    /** When only the buffer of one metric has changed. */
    twostate lemma OnlyChanged(kind: string)
      requires kind in buffers && buffers == old(buffers)
      requires forall k | k in buffers && k != kind :: buffers[k].State() == old(buffers[k].State())
      ensures Held() == old(Held())[kind := buffers[kind].State()]
    {
    }

    /** The buffer of a metric, created when there is none yet. */
    method BufferFor(kind: string) returns (buffer: MessageBuffer)
      requires Valid() && kind != ""
      modifies this`buffers
      ensures Valid() && fresh(Repr() - old(Repr()))
      ensures kind in buffers && buffers[kind] == buffer
      ensures buffer in old(buffers).Values || fresh(buffer)
      ensures View() == old(View()).(queues := old(Held())[kind := QueueOf(old(View()), kind)])
    {
      if kind !in buffers {
        buffer := new MessageBuffer(kind, policy, Through(kind));
        buffers := buffers[kind := buffer];
      } else {
        buffer := buffers[kind];
      }
      assert Held() == old(Held())[kind := QueueOf(old(View()), kind)];
    }

    method PushTo(kind: string, message: Message) returns (ok: bool)
      requires Valid() && kind in buffers && message.kind == kind
      modifies this`dropped, buffers[kind]
      ensures Valid()
      ensures var q := old(buffers[kind].State());
        && ok == Accepts(policy, q)
        && View() == old(View()).(queues := old(Held())[kind := Push(policy, q, message)],
                                  dropped := old(dropped) + Lost(policy, q, message))
    {
      ghost var q := buffers[kind].State();
      Separate(kind);
      assert BufferOk(kind, buffers[kind]);
      ok := buffers[kind].Add(message);
      dropped := dropped + Lost(policy, q, message);
      OnlyChanged(kind);
    }

    /** Sends all a buffer holds; it is put back when that fails. */
    method SendContents(kind: string, buffer: MessageBuffer) returns (delivered: bool)
      requires client.Valid() && BufferOk(kind, buffer) && buffer.messages != []
      modifies client, buffer
      ensures client.Valid() && BufferOk(kind, buffer)
      ensures delivered == client.link(old(client.attempts))
      ensures client.attempts == old(client.attempts) + 1
      ensures client.sent == old(client.sent) + if delivered then old(buffer.messages) else []
      ensures buffer.State() == if delivered then Queue([], old(buffer.maxMessages)) else old(buffer.State())
    {
      var toSend := buffer.Get([], 0);
      delivered := client.Send(toSend);
      if !delivered {
        PushAllFits(policy, buffer.State(), toSend);
        buffer.PutBack(toSend);
      }
    }

    method FlushBuffer(kind: string)
      requires Valid() && kind in buffers && buffers[kind].messages != []
      modifies this`flushed, client, buffers[kind]
      ensures Valid()
      ensures View() == Flush(client.link, old(View()), kind)
    {
      hide Largest, Payload, QueueOk;
      Separate(kind);
      assert BufferOk(kind, buffers[kind]);
      var delivered := SendContents(kind, buffers[kind]);
      flushed := flushed[kind := delivered];
      OnlyChanged(kind);
    }

    method Add(message: Message) returns (ok: bool)
      requires Valid()
      modifies this, client, buffers.Values
      ensures Valid() && fresh(Repr() - old(Repr()))
      ensures View() == Store.Add(policy, client.link, old(View()), message)
      ensures ok == Added(policy, old(View()), message)
    {
      hide QueueOk, BufferOk, Largest, Payload, Flush, Push, Lost;
      if !message.IsValid() {
        dropped := dropped + [message];
        return false;
      }
      var kind := message.kind;
      ghost var s := View();
      ghost var q := QueueOf(s, kind);
      AddInSteps(policy, client.link, s, message);
      var buffer := BufferFor(kind);
      assert buffer.State() == Held()[kind] == q;
      ok := PushTo(kind, message);
      assert buffer.State() == Held()[kind] == Push(policy, q, message);
      if ok && |buffer.messages| >= policy.capacity {
        FlushBuffer(kind);
      }
    }

    method Fetch(kind: string, target: seq<Message>) returns (result: seq<Message>)
      requires Valid() && kind in buffers
      modifies buffers[kind]
      ensures Valid()
      ensures result == target + old(buffers[kind].messages)
      ensures Held() == old(Held())[kind := Queue([], old(buffers[kind].maxMessages))]
    {
      Separate(kind);
      assert BufferOk(kind, buffers[kind]);
      result := buffers[kind].Get(target, 0);
      OnlyChanged(kind);
    }

    /** Moves everything buffered to `target`, metric by metric. */
    method GetAll(target: seq<Message>) returns (result: seq<Message>)
      requires Valid()
      modifies buffers.Values
      ensures Valid()
      ensures result == target + Buffered(old(View()))
      ensures View() == Drained(old(View()))
    {
      hide EmptiedQueues, Store.Contents, BufferOk, Valid, QueueOk, Largest;
      var keys := Ordering.InOrder(buffers.Keys);
      ghost var before := Held();
      assert keys[..0] == [] && keys[..|keys|] == keys;
      assert before.Keys == buffers.Keys;
      result := target;
      EmptiedNone(before);
      for i := 0 to |keys|
        invariant Valid()
        invariant Held() == EmptiedQueues(before, keys[..i])
        invariant result == target + Store.Contents(before, keys[..i])
      {
        var kind := keys[i];
        assert kind in keys;
        EmptiedNext(before, keys, i);
        assert Held()[kind] == before[kind];
        Joined(target, Store.Contents(before, keys[..i]), before[kind].items);
        result := Fetch(kind, result);
      }
    }

    method GetKind(kind: string, target: seq<Message>) returns (result: seq<Message>)
      requires Valid()
      modifies buffers.Values
      ensures Valid()
      ensures result == target + QueueOf(old(View()), kind).items
      ensures View() == Fetched(old(View()), kind)
    {
      if kind !in buffers {
        assert Held() == EmptiedQueues(Held(), [kind]);
        return target;
      }
      result := Fetch(kind, target);
      assert Held() == EmptiedQueues(old(Held()), [kind]);
    }

    /** The largest high-water mark of the live sub-buffers. */
    method BuffersMaxMessages() returns (max: nat)
      requires Valid()
      ensures forall k | k in buffers :: Largest(buffers[k].sizes) <= max
      ensures max > 0 ==> exists k | k in buffers :: Largest(buffers[k].sizes) == max
    {
      max := 0;
      var keys := Ordering.InOrder(buffers.Keys);
      for i := 0 to |keys|
        invariant forall j | 0 <= j < i :: buffers[keys[j]].maxMessages <= max
        invariant max > 0 ==> exists k | k in buffers :: buffers[k].maxMessages == max
      {
        assert keys[i] in keys;
        var size := buffers[keys[i]].maxMessages;
        if size > max {
          max := size;
        }
      }
      forall k | k in buffers ensures Largest(buffers[k].sizes) == buffers[k].maxMessages <= max {
        assert BufferOk(k, buffers[k]);
        assert k in keys;
      }
    }

    method BufferSizes() returns (result: map<string, nat>)
      requires Valid()
      ensures result.Keys == buffers.Keys
      ensures forall k | k in buffers :: result[k] == |buffers[k].messages|
    {
      hide BufferOk, Ordering.Elements;
      result := map[];
      var keys := Ordering.InOrder(buffers.Keys);
      Ordering.ElementsEnds(buffers.Keys);
      for i := 0 to |keys|
        invariant result.Keys == Ordering.Elements(keys[..i])
        invariant forall k | k in result :: k in buffers && result[k] == |buffers[k].messages|
      {
        Ordering.ElementsStep(keys, i);
        result := result[keys[i] := |buffers[keys[i]].messages|];
      }
      assert keys[..|keys|] == keys;
    }

    /** Forgets a sub-buffer, together with whatever it holds. */
    method Remove(kind: string)
      requires Valid()
      modifies this`buffers, this`dropped
      ensures Valid()
      ensures buffers == old(buffers) - {kind}
      ensures View() == Removed(old(View()), kind)
    {
      dropped := dropped + QueueOf(View(), kind).items;
      buffers := buffers - {kind};
      assert Held() == old(Held()) - {kind};
    }
  }
}
