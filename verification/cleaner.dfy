/**
 The cleaner: forgets sub-buffers that have been found empty too many times in a row.
 */
module Cleaners {
  import opened Messages
  import opened Store
  import opened MessageBuffers
  import opened GlobalBuffers
  import opened Delivery
  import Ordering

  /** How many of the latest observed sizes are zero. */
  function TrailingEmpty(sizes: seq<nat>): nat {
    if sizes == [] || sizes[|sizes| - 1] != 0 then 0 else 1 + TrailingEmpty(sizes[..|sizes| - 1])
  }

  lemma TrailingStep(sizes: seq<nat>, size: nat)
    ensures TrailingEmpty(sizes + [size]) == if size == 0 then TrailingEmpty(sizes) + 1 else 0
  {
    assert (sizes + [size])[..|sizes|] == sizes;
  }

  /** The run of empty observations is as long as it can be. */
  lemma {:induction false} TrailingIsRun(sizes: seq<nat>)
    ensures var n := TrailingEmpty(sizes);
      && n <= |sizes|
      && (forall i | |sizes| - n <= i < |sizes| :: sizes[i] == 0)
      && (n < |sizes| ==> sizes[|sizes| - n - 1] != 0)
  {
    if sizes == [] || sizes[|sizes| - 1] != 0 {
    } else {
      TrailingIsRun(sizes[..|sizes| - 1]);
    }
  }

  /** The name a sub-buffer is counted under. */
  function StateName(kind: string): string {
    "gb_" + kind
  }

  lemma StateNamesDiffer(a: string, b: string)
    ensures StateName(a) == StateName(b) ==> a == b
  {
    assert StateName(a)[3..] == a && StateName(b)[3..] == b;
  }

  function Counter(states: map<string, nat>, kind: string): nat {
    if StateName(kind) in states then states[StateName(kind)] else 0
  }

  ghost function Seen(observed: map<string, seq<nat>>, kind: string): seq<nat> {
    if kind in observed then observed[kind] else []
  }

  /** Each counter is the length of the current run of empty observations of a known sub-buffer; it is
      below the limit, and absent when there is no such run. */
  ghost predicate Counts(limit: nat, states: map<string, nat>, observed: map<string, seq<nat>>) {
    && (forall k :: Counter(states, k) == TrailingEmpty(Seen(observed, k)) < limit)
    && (forall n | n in states :: states[n] >= 1 && exists k :: k in observed && n == StateName(k))
  }

  class Cleaner {
    const buffer: GlobalBuffer
    const maxEmptyTime: nat
    var states: map<string, nat>
    /** The sizes each live sub-buffer has been seen with, since it was created. */
    ghost var observed: map<string, seq<nat>>

    ghost predicate Valid()
      reads this, buffer, buffer.client, buffer.buffers.Values
    {
      && buffer.Valid()
      && maxEmptyTime >= 2
      && observed.Keys <= buffer.buffers.Keys
      && Counts(maxEmptyTime, states, observed)
    }

    constructor (buffer: GlobalBuffer, maxEmptyTime: nat)
      requires buffer.Valid()
      ensures Valid() && this.buffer == buffer && observed == map[]
      ensures this.maxEmptyTime == if maxEmptyTime > 2 then maxEmptyTime else 2
    {
      this.buffer := buffer;
      this.maxEmptyTime := if maxEmptyTime > 2 then maxEmptyTime else 2;
      states, observed := map[], map[];
    }

    /** Whatever happens to the global buffer between two looks: as long as no sub-buffer is removed by
        others, the counters stay right. */
    twostate lemma StaysValid()
      requires old(Valid()) && buffer.Valid() && unchanged(this)
      requires old(buffer.buffers.Keys) <= buffer.buffers.Keys
      ensures Valid()
    {
    }

    /** So it is when messages are added, by producers, by the pipeline or by the timer that puts back. */
    twostate lemma StaysValidOverAdds(ms: seq<Message>)
      requires old(Valid()) && buffer.Valid() && unchanged(this)
      requires buffer.View() == AddAll(buffer.policy, buffer.client.link, old(buffer.View()), ms)
      ensures Valid()
    {
      hide AddAll, GlobalBuffer.Valid, Counts;
      AddAllKeepsMetrics(buffer.policy, buffer.client.link, old(buffer.View()), ms);
      assert old(buffer.View().queues.Keys) == old(buffer.buffers.Keys);
      assert buffer.View().queues.Keys == buffer.buffers.Keys;
      StaysValid();
    }

    /** And over an iteration of the timer. */
    twostate lemma StaysValidOverRound()
      requires old(Valid()) && buffer.Valid() && unchanged(this)
      requires buffer.View() == TimerRound(buffer.policy, buffer.client.link, old(buffer.View()))
      ensures Valid()
    {
      hide AddAll, GlobalBuffer.Valid, Counts, TimerRound, Drained;
      var before := old(buffer.View());
      var tried := Drained(before).(attempts := before.attempts + if Buffered(before) == [] then 0 else 1);
      RoundInCases(buffer.policy, buffer.client.link, before);
      AddAllKeepsMetrics(buffer.policy, buffer.client.link, tried, Buffered(before));
      DrainedMetrics(before);
      assert before.queues.Keys == old(buffer.buffers.Keys);
      assert buffer.View().queues.Keys == buffer.buffers.Keys;
      StaysValid();
    }

    /** Takes note of the size of a sub-buffer; tells whether it has now been empty for too long. */
    method Count(kind: string, size: nat) returns (expired: bool)
      requires maxEmptyTime >= 2 && Counts(maxEmptyTime, states, observed)
      modifies this
      ensures Counts(maxEmptyTime, states, observed)
      ensures var seen := Seen(old(observed), kind) + [size];
        && expired == (TrailingEmpty(seen) >= maxEmptyTime)
        && (expired ==> size == 0)
        && observed == if expired then old(observed) - {kind} else old(observed)[kind := seen]
    {
      hide TrailingEmpty, Counts;
      CountsFor(maxEmptyTime, states, observed, kind);
      TrailingStep(Seen(observed, kind), size);
      ghost var seen := Seen(observed, kind) + [size];
      ghost var states0, observed0 := states, observed;
      var name := StateName(kind);
      observed := observed[kind := seen];
      expired := false;
      if size == 0 {
        if name in states {
          if states[name] + 1 == maxEmptyTime {
            states := states - {name};
            observed := observed0 - {kind};
            expired := true;
            TrailingNone();
          } else {
            states := states[name := states[name] + 1];
          }
        } else {
          states := states[name := 1];
        }
      } else {
        states := states - {name};
      }
      CountsAfter(maxEmptyTime, states0, observed0, states, observed, kind);
    }

    /** Counts a sub-buffer of the global buffer, and removes it when it has been empty for too long. */
    method Clean(kind: string, size: nat)
      requires Valid() && kind in buffer.buffers && size == |buffer.buffers[kind].messages|
      modifies this, buffer`buffers, buffer`dropped
      ensures Valid() && buffer.dropped == old(buffer.dropped)
      ensures var seen := Seen(old(observed), kind) + [size];
        if TrailingEmpty(seen) >= maxEmptyTime then
          && size == 0
          && observed == old(observed) - {kind}
          && buffer.buffers == old(buffer.buffers) - {kind}
        else
          && observed == old(observed)[kind := seen]
          && buffer.buffers == old(buffer.buffers)
    {
      hide TrailingEmpty, Counts;
      var expired := Count(kind, size);
      if expired {
        ghost var before := buffer.View();
        assert QueueOf(before, kind).items == [];
        buffer.Remove(kind);
        assert buffer.dropped == before.dropped + [];
      }
    }

    /** Of the sub-buffers there were, those in `done` have been looked at and the others are as they
        were. */
    ghost predicate Halfway(live: map<string, MessageBuffer>, seen: map<string, seq<nat>>,
                            sizes: map<string, nat>, done: set<string>)
      reads this, buffer
    {
      && (forall k | k in buffer.buffers :: k in live && buffer.buffers[k] == live[k])
      && (forall k | k in live && k !in done :: k in buffer.buffers && Seen(observed, k) == Seen(seen, k))
      && forall k | k in done :: Judged(maxEmptyTime, seen, buffer.buffers.Keys, observed, sizes, k)
    }

    lemma NothingCleaned(sizes: map<string, nat>)
      ensures Halfway(buffer.buffers, observed, sizes, {})
    {
    }

    method CleanNext(kind: string, sizes: map<string, nat>, ghost live: map<string, MessageBuffer>,
                     ghost seen: map<string, seq<nat>>, ghost done: set<string>)
      requires Valid() && Halfway(live, seen, sizes, done)
      requires kind in sizes && kind in live && kind !in done && sizes[kind] == |live[kind].messages|
      modifies this, buffer`buffers, buffer`dropped
      ensures Valid() && buffer.dropped == old(buffer.dropped)
      ensures Halfway(live, seen, sizes, done + {kind})
    {
      hide TrailingEmpty, Counts, Judged, Seen, Valid;
      ghost var live0, observed0 := buffer.buffers.Keys, observed;
      Clean(kind, sizes[kind]);
      JudgedNow(maxEmptyTime, seen, live0, observed0, buffer.buffers.Keys, observed, sizes, done, kind);
    }

    /** Goes over the sub-buffers, given their sizes. */
    method Sweep(sizes: map<string, nat>)
      requires Valid() && sizes.Keys == buffer.buffers.Keys
      requires forall k | k in sizes :: sizes[k] == |buffer.buffers[k].messages|
      modifies this, buffer`buffers, buffer`dropped
      ensures Valid() && buffer.dropped == old(buffer.dropped)
      ensures Halfway(old(buffer.buffers), old(observed), sizes, sizes.Keys)
    {
      hide TrailingEmpty, Counts, Judged, Seen, Ordering.Elements, Valid, Halfway;
      NothingCleaned(sizes);
      var keys := Ordering.InOrder(sizes.Keys);
      Ordering.ElementsEnds(sizes.Keys);
      ghost var live, seen := buffer.buffers, observed;
      ghost var done: set<string> := {};
      for i := 0 to |keys|
        invariant Valid() && buffer.dropped == old(buffer.dropped)
        invariant done == Ordering.Elements(keys[..i])
        invariant Halfway(live, seen, sizes, done)
      {
        Ordering.ElementsStep(keys, i);
        CleanNext(keys[i], sizes, live, seen, done);
        done := done + {keys[i]};
      }
    }

    /** One look at every sub-buffer. Those that have now been empty `maxEmptyTime` times in a row are
        gone, the others are untouched, and no message is lost. */
    method Iteration()
      requires Valid()
      modifies this, buffer`buffers, buffer`dropped
      ensures Valid() && buffer.dropped == old(buffer.dropped)
      ensures forall k :: k in buffer.buffers <==>
        k in old(buffer.buffers)
        && TrailingEmpty(Seen(old(observed), k) + [|old(buffer.buffers[k].messages)|]) < maxEmptyTime
      ensures forall k | k in buffer.buffers ::
        && buffer.buffers[k] == old(buffer.buffers[k])
        && k in observed && observed[k] == Seen(old(observed), k) + [|old(buffer.buffers[k].messages)|]
      ensures forall k | k in old(buffer.buffers) && k !in buffer.buffers ::
        old(buffer.buffers[k].messages) == []
    {
      hide TrailingEmpty, Counts, GlobalBuffer.BufferOk, Seen;
      var sizes := buffer.BufferSizes();
      Sweep(sizes);
      assert forall k | k in sizes :: Judged(maxEmptyTime, old(observed), buffer.buffers.Keys, observed, sizes, k);
    }
  }

  /** A sub-buffer has been looked at: it is gone if its run of empty observations reached the limit,
      else it is still there with one more observation. */
  ghost predicate Judged(limit: nat, seen: map<string, seq<nat>>, live: set<string>,
                         observed: map<string, seq<nat>>, sizes: map<string, nat>, kind: string)
  {
    && kind in sizes
    && var history := Seen(seen, kind) + [sizes[kind]];
       if TrailingEmpty(history) < limit then
         kind in live && kind in observed && observed[kind] == history
       else
         kind !in live && sizes[kind] == 0
  }

  /** Looking at one more sub-buffer settles it and leaves the others as they are. */
  lemma JudgedNow(limit: nat, seen: map<string, seq<nat>>,
                  live0: set<string>, observed0: map<string, seq<nat>>,
                  live: set<string>, observed: map<string, seq<nat>>,
                  sizes: map<string, nat>, done: set<string>, kind: string)
    requires kind !in done && kind in sizes && kind in live0 && Seen(observed0, kind) == Seen(seen, kind)
    requires var history := Seen(seen, kind) + [sizes[kind]];
      if TrailingEmpty(history) >= limit then
        sizes[kind] == 0 && observed == observed0 - {kind} && live == live0 - {kind}
      else
        observed == observed0[kind := history] && live == live0
    requires forall k | k in done :: Judged(limit, seen, live0, observed0, sizes, k)
    ensures forall k | k in done + {kind} :: Judged(limit, seen, live, observed, sizes, k)
    ensures forall k | k != kind :: Seen(observed, k) == Seen(observed0, k)
  {
    hide TrailingEmpty;
    forall k | k in done ensures Judged(limit, seen, live, observed, sizes, k) {
      assert Judged(limit, seen, live0, observed0, sizes, k);
    }
  }

  lemma CountsFor(limit: nat, states: map<string, nat>, observed: map<string, seq<nat>>, kind: string)
    requires Counts(limit, states, observed)
    ensures Counter(states, kind) == TrailingEmpty(Seen(observed, kind)) < limit
    ensures StateName(kind) in states ==> Counter(states, kind) >= 1 && kind in observed
  {
    if StateName(kind) in states {
      var k :| k in observed && StateName(kind) == StateName(k);
      StateNamesDiffer(kind, k);
    }
  }

  lemma TrailingNone()
    ensures TrailingEmpty([]) == 0
  {
  }

  /** The counters still agree with the observations when one sub-buffer has been counted anew. */
  lemma CountsAfter(limit: nat, states0: map<string, nat>, observed0: map<string, seq<nat>>,
                    states: map<string, nat>, observed: map<string, seq<nat>>, kind: string)
    requires Counts(limit, states0, observed0)
    requires forall n | n != StateName(kind) :: n in states <==> n in states0
    requires forall n | n in states && n != StateName(kind) :: states[n] == states0[n]
    requires forall k | k != kind :: Seen(observed, k) == Seen(observed0, k)
    requires forall k | k != kind :: k in observed <==> k in observed0
    requires Counter(states, kind) == TrailingEmpty(Seen(observed, kind)) < limit
    requires StateName(kind) in states ==> Counter(states, kind) >= 1 && kind in observed
    ensures Counts(limit, states, observed)
  {
    hide TrailingEmpty;
    forall k ensures Counter(states, k) == TrailingEmpty(Seen(observed, k)) < limit {
      StateNamesDiffer(k, kind);
      assert Counter(states0, k) == TrailingEmpty(Seen(observed0, k)) < limit;
    }
    forall n | n in states ensures states[n] >= 1 && exists k :: k in observed && n == StateName(k) {
      if n != StateName(kind) {
        var k :| k in observed0 && n == StateName(k);
        assert k in observed;
      }
    }
  }

  // ---------- The counting rule on its own ----------

  datatype Watch = Unwatched | Empty(times: nat) | Gone

  /** The rule of `Clean` for one sub-buffer. */
  function Observe(limit: nat, w: Watch, size: nat): Watch {
    if w.Gone? then Gone
    else if size != 0 then Unwatched
    else if w.Unwatched? then Empty(1)
    else if w.times + 1 == limit then Gone
    else Empty(w.times + 1)
  }

  function ObserveAll(limit: nat, sizes: seq<nat>): Watch {
    if sizes == [] then Unwatched
    else Observe(limit, ObserveAll(limit, sizes[..|sizes| - 1]), sizes[|sizes| - 1])
  }

  ghost predicate EverExpired(limit: nat, sizes: seq<nat>) {
    exists i :: 0 <= i <= |sizes| && TrailingEmpty(sizes[..i]) >= limit
  }

  /** Whatever the sizes, the rule counts the current run of empty observations, and gives the
      sub-buffer up at the first run that reaches the limit. */
  lemma {:induction false} WatchRefinesHistory(limit: nat, sizes: seq<nat>)
    requires limit >= 2
    ensures ObserveAll(limit, sizes)
         == if EverExpired(limit, sizes) then Gone
            else if TrailingEmpty(sizes) == 0 then Unwatched
            else Empty(TrailingEmpty(sizes))
  {
    if sizes == [] {
      assert forall i | 0 <= i <= 0 :: sizes[..i] == [];
    } else {
      var n := |sizes| - 1;
      var front := sizes[..n];
      WatchRefinesHistory(limit, front);
      TrailingStep(front, sizes[n]);
      assert front + [sizes[n]] == sizes == sizes[..|sizes|];
      assert forall i | 0 <= i <= n :: front[..i] == sizes[..i];
      if EverExpired(limit, front) {
        var i :| 0 <= i <= n && TrailingEmpty(front[..i]) >= limit;
        assert TrailingEmpty(sizes[..i]) >= limit;
      } else {
        assert front[..n] == front;
        assert TrailingEmpty(front) < limit;
      }
    }
  }
}
