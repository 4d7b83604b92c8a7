/**
 The buffer of one metric (or of one operation of one metric): a bounded list of messages.
 */
module MessageBuffers {
  import opened Messages
  import opened Queues

  /** Where a buffer sits. No two buffers of a program share a place, so different places tell the
      objects apart. */
  datatype Place = Through(kind: string) | Maths(kind: string, index: nat)

  /** The largest number in a history. */
  ghost function Largest(sizes: seq<nat>): nat {
    if sizes == [] then 0 else Max(Largest(sizes[..|sizes| - 1]), sizes[|sizes| - 1])
  }

  lemma LargestStep(sizes: seq<nat>, size: nat)
    ensures Largest(sizes + [size]) == Max(Largest(sizes), size) && Largest([]) == 0
  {
    assert (sizes + [size])[..|sizes|] == sizes;
  }

  lemma {:induction false} LargestIsMaximum(sizes: seq<nat>)
    ensures forall i | 0 <= i < |sizes| :: sizes[i] <= Largest(sizes)
    ensures sizes != [] ==> Largest(sizes) in sizes
  {
    hide Largest;
    if sizes == [] {
    } else {
      var front, last := sizes[..|sizes| - 1], sizes[|sizes| - 1];
      assert sizes == front + [last];
      LargestStep(front, last);
      LargestIsMaximum(front);
      if Largest(sizes) == last {
        assert sizes[|sizes| - 1] == last;
      } else if front == [] {
        LargestStep([], last);
      } else {
        assert Largest(front) in front;
      }
    }
  }

  /** One step of a rotation: the list is what is still to be looked at, then what was put back. */
  lemma RotationStep(all: seq<Message>, i: nat, list: seq<Message>, kept: seq<Message>)
    requires i < |all| && list == all[i..] + kept
    ensures |list| > 0 && list[0] == all[i]
    ensures list[1..] == all[i + 1..] + kept
    ensures list[1..] + [all[i]] == all[i + 1..] + (kept + [all[i]])
  {
  }

  class MessageBuffer {
    const name: string
    const policy: Policy
    ghost const place: Place
    var messages: seq<Message>
    var maxMessages: nat
    /** Every size the list has had, in order. */
    ghost var sizes: seq<nat>

    ghost predicate Valid()
      reads this
    {
      && |messages| <= policy.capacity
      && sizes != []
      && sizes[|sizes| - 1] == |messages|
      && maxMessages == Largest(sizes)
    }

    ghost function State(): Queue
      reads this
    {
      Queue(messages, maxMessages)
    }

    constructor (name: string, policy: Policy, ghost place: Place)
      ensures Valid() && State() == EMPTY
      ensures this.name == name && this.policy == policy && this.place == place
      ensures sizes == [0]
    {
      this.name, this.policy, this.place := name, policy, place;
      messages, maxMessages, sizes := [], 0, [0];
    }

    /** The high-water mark is at least the present size. */
    lemma PeakCoversSize()
      requires Valid()
      ensures |messages| <= maxMessages
    {
      LargestIsMaximum(sizes);
    }

    /** `std::list::pop_front` */
    method PopFront() returns (message: Message)
      requires Valid() && messages != []
      modifies this`messages, this`sizes
      ensures Valid() && old(sizes) <= sizes
      ensures message == old(messages)[0] && messages == old(messages)[1..]
    {
      PeakCoversSize();
      message := messages[0];
      messages := messages[1..];
      LargestStep(sizes, |messages|);
      sizes := sizes + [|messages|];
    }

    /** `std::list::push_back` */
    method PushBack(message: Message)
      requires Valid() && |messages| < policy.capacity
      modifies this`messages, this`sizes
      ensures messages == old(messages) + [message]
      ensures old(sizes) <= sizes && sizes[|sizes| - 1] == |messages|
      ensures Largest(sizes) == Max(maxMessages, |messages|)
    {
      messages := messages + [message];
      LargestStep(sizes, |messages|);
      sizes := sizes + [|messages|];
    }

    method Add(message: Message) returns (ok: bool)
      requires Valid()
      modifies this
      ensures Valid() && old(sizes) <= sizes
      ensures State() == Push(policy, old(State()), message)
      ensures ok == Accepts(policy, old(State()))
      ensures |old(messages)| < policy.capacity ==> ok && messages == old(messages) + [message]
      ensures |old(messages)| == policy.capacity && policy.dropOldest ==>
        ok && messages == old(messages)[1..] + [message]
      ensures |old(messages)| == policy.capacity && !policy.dropOldest ==> !ok && messages == old(messages)
    {
      if |messages| >= policy.capacity {
        if policy.dropOldest {
          var _ := PopFront();
        } else {
          return false;
        }
      }
      PushBack(message);
      var size := |messages|;
      if size > maxMessages {
        maxMessages := size;
      }
      return true;
    }

    method PutBack(batch: seq<Message>)
      requires Valid()
      modifies this
      ensures Valid() && old(sizes) <= sizes
      ensures State() == PushAll(policy, old(State()), batch)
    {
      for i := 0 to |batch|
        invariant Valid() && old(sizes) <= sizes
        invariant PushAll(policy, State(), batch[i..]) == PushAll(policy, old(State()), batch)
      {
        assert batch[i..][1..] == batch[i + 1..];
        var _ := Add(batch[i]);
      }
    }

    /** Moves the `count` oldest messages to `target`; all of them when `count` is zero or too large. */
    method Get(target: seq<Message>, count: nat) returns (result: seq<Message>)
      requires Valid()
      modifies this`messages, this`sizes
      ensures Valid() && old(sizes) <= sizes
      ensures var taken := if count == 0 || count > |old(messages)| then |old(messages)| else count;
        result == target + old(messages)[..taken] && messages == old(messages)[taken..]
    {
      result := target;
      if messages == [] {
        return;
      }
      var n := if count == 0 || count > |messages| then |messages| else count;
      for i := 0 to n
        invariant Valid() && old(sizes) <= sizes
        invariant messages == old(messages)[i..]
        invariant result == target + old(messages)[..i]
      {
        var message := PopFront();
        result := result + [message];
      }
    }

    /** One turn of the rotation: the oldest message leaves when it is due, else it goes to the back. */
    method Rotate(limit: nat) returns (taken: seq<Message>)
      requires Valid() && messages != []
      modifies this`messages, this`sizes
      ensures Valid() && old(sizes) <= sizes
      ensures var first := old(messages)[0];
        if first.timestamp <= limit then taken == [first] && messages == old(messages)[1..]
        else taken == [] && messages == old(messages)[1..] + [first]
    {
      PeakCoversSize();
      var message := PopFront();
      if message.timestamp <= limit {
        taken := [message];
      } else {
        PushBack(message);
        taken := [];
      }
    }

    /** Moves the messages stamped no later than `limit` to `target`, rotating the list once. */
    method GetOlderThan(target: seq<Message>, limit: nat) returns (result: seq<Message>)
      requires Valid()
      modifies this`messages, this`sizes
      ensures Valid() && old(sizes) <= sizes
      ensures result == target + Select(UpTo(limit), old(messages))
      ensures messages == Select(After(limit), old(messages))
      ensures forall m :: m in result[|target|..] <==> m in old(messages) && m.timestamp <= limit
      ensures forall m :: m in messages <==> m in old(messages) && m.timestamp > limit
    {
      hide Select;
      SelectMembers(UpTo(limit), messages);
      SelectMembers(After(limit), messages);
      result := target;
      if messages == [] {
        SelectNone(UpTo(limit), []);
        SelectNone(After(limit), []);
        return;
      }
      var size := |messages|;
      ghost var all := messages;
      assert all[..0] == [] && all[0..] == all;
      SelectNone(UpTo(limit), []);
      SelectNone(After(limit), []);
      for i := 0 to size
        invariant Valid() && old(sizes) <= sizes
        invariant messages == all[i..] + Select(After(limit), all[..i])
        invariant result == target + Select(UpTo(limit), all[..i])
      {
        SelectPrefix(After(limit), all, i);
        SelectPrefix(UpTo(limit), all, i);
        RotationStep(all, i, messages, Select(After(limit), all[..i]));
        var taken := Rotate(limit);
        result := result + taken;
      }
      assert all[..size] == all;
      assert result[|target|..] == Select(UpTo(limit), all);
    }
  }
}
