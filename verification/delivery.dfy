/**
 What one call and one timer round do to the buffered messages: nothing is lost, each sub-buffer is
 delivered whole or kept whole, and a round that fails throughout changes nothing.
 */
module Delivery {
  import opened Messages
  import opened Queues
  import opened Clients
  import opened Store
  import Ordering

  /** One timer iteration without interference: take everything, try to send it, put it back one by
      one when that fails. */
  function TimerRound(p: Policy, link: Link, s: State): State {
    var batch := Buffered(s);
    if batch == [] then Drained(s)
    else
      var tried := Drained(s).(attempts := s.attempts + 1);
      if link(s.attempts) then tried.(sent := s.sent + batch) else AddAll(p, link, tried, batch)
  }

  lemma RoundInCases(p: Policy, link: Link, s: State)
    ensures var batch := Buffered(s);
      var tried := Drained(s).(attempts := s.attempts + if batch == [] then 0 else 1);
      TimerRound(p, link, s)
      == if batch != [] && link(s.attempts) then tried.(sent := s.sent + batch) else AddAll(p, link, tried, batch)
  {
  }

  // ---------- Putting one sub-buffer back ----------

  function Refilled(s: State, kind: string, items: seq<Message>): State {
    var q := QueueOf(s, kind);
    s.(queues := s.queues[kind := Queue(q.items + items, Max(q.peak, |q.items + items|))])
  }

  /** Adding to a sub-buffer with room. */
  lemma AddWithRoom(p: Policy, link: Link, s: State, m: Message)
    requires m.IsValid() && |QueueOf(s, m.kind).items| < p.capacity
    ensures var t := Refilled(s, m.kind, [m]);
      Add(p, link, s, m) == if |QueueOf(t, m.kind).items| < p.capacity then t else Flush(link, t, m.kind)
  {
    assert s.dropped + [] == s.dropped;
  }

  lemma RefilledTwice(s: State, kind: string, a: seq<Message>, b: seq<Message>)
    ensures Refilled(Refilled(s, kind, a), kind, b).queues[kind].items == QueueOf(s, kind).items + (a + b)
    ensures Refilled(Refilled(s, kind, a), kind, b) == Refilled(s, kind, a + b)
  {
    var q := QueueOf(s, kind);
    assert q.items + a + b == q.items + (a + b);
    var one := Refilled(s, kind, a + b);
    assert s.queues[kind := Refilled(s, kind, a).queues[kind]][kind := one.queues[kind]] == one.queues;
  }

  /** Adding messages of one metric makes a send attempt only when they fill the sub-buffer up. */
  lemma {:induction false} AddBlock(p: Policy, link: Link, s: State, kind: string, items: seq<Message>)
    requires kind != "" && items != []
    requires forall m | m in items :: m.kind == kind
    requires |QueueOf(s, kind).items| + |items| <= p.capacity
    ensures var t := Refilled(s, kind, items);
      AddAll(p, link, s, items) == if |QueueOf(t, kind).items| < p.capacity then t else Flush(link, t, kind)
  {
    hide Add, AddAll, Refilled, Flush;
    var n := |items| - 1;
    var front, last := items[..n], items[n];
    assert items == front + [last] && last in items;
    AddAllStep(p, link, s, front, last);
    if front == [] {
      AddAllNone(p, link, s);
      AddWithRoom(p, link, s, last);
      assert items == [last];
    } else {
      AddBlock(p, link, s, kind, front);
      var t := Refilled(s, kind, front);
      RefilledSize(s, kind, front);
      RefilledTwice(s, kind, front, [last]);
      AddWithRoom(p, link, t, last);
    }
  }

  lemma RefilledSize(s: State, kind: string, items: seq<Message>)
    ensures QueueOf(Refilled(s, kind, items), kind).items == QueueOf(s, kind).items + items
  {
  }

  // ---------- Putting everything back ----------

  /** What has become of the sub-buffers of `s` named in `keys` after their contents were added to
      `base`, where they were empty: each is there whole, or was full and has been delivered whole.
      Nothing was dropped, and the other sub-buffers of `base` are untouched. */
  ghost predicate Settled(p: Policy, s: State, base: State, t: State, keys: seq<string>) {
    && t.queues.Keys == base.queues.Keys + (set k | k in keys && QueueOf(s, k).items != [])
    && t.dropped == base.dropped
    && base.sent <= t.sent
    && forall k :: SettledFor(p, s, base, t, keys, k)
  }

  ghost predicate SettledFor(p: Policy, s: State, base: State, t: State, keys: seq<string>, kind: string)
    requires base.sent <= t.sent
  {
    var items, after := QueueOf(s, kind).items, QueueOf(t, kind);
    var delivered := Select(OfKind(kind), t.sent[|base.sent|..]);
    if kind in keys then
      && after.peak == Max(QueueOf(base, kind).peak, |items|)
      && ((delivered == [] && after.items == items)
          || (|items| == p.capacity && delivered == items && after.items == []))
    else
      after == QueueOf(base, kind) && delivered == []
  }

  /** The result of adding the contents of one sub-buffer: delivered when full and the link is up, else
      kept. */
  lemma PutBack(p: Policy, link: Link, t: State, kind: string, items: seq<Message>)
    requires items != [] && kind != "" && QueueOf(t, kind).items == []
    requires |items| <= p.capacity
    requires forall m | m in items :: m.kind == kind
    ensures var u := AddAll(p, link, t, items);
      var delivered := |items| >= p.capacity && link(t.attempts);
      && u.queues == t.queues[kind := Queue(if delivered then [] else items, Max(QueueOf(t, kind).peak, |items|))]
      && u.dropped == t.dropped
      && u.sent == t.sent + if delivered then items else []
  {
    AddBlock(p, link, t, kind, items);
    assert [] + items == items;
  }

  lemma SettleOne(p: Policy, link: Link, s: State, base: State, t: State, keys: seq<string>, kind: string)
    requires WellFormed(p, s) && Settled(p, s, base, t, keys)
    requires kind in s.queues && kind !in keys && QueueOf(base, kind).items == []
    ensures Settled(p, s, base, AddAll(p, link, t, s.queues[kind].items), keys + [kind])
  {
    hide AddAll, Select;
    var items := s.queues[kind].items;
    var u := AddAll(p, link, t, items);
    assert SettledFor(p, s, base, t, keys, kind);
    assert QueueOk(p, kind, s.queues[kind]);
    if items == [] {
      AddAllNone(p, link, t);
      assert t.sent + [] == t.sent;
    } else {
      PutBack(p, link, t, kind, items);
    }
    var delivered := if items != [] && |items| >= p.capacity && link(t.attempts) then items else [];
    var before := t.sent[|base.sent|..];
    assert u.sent[|base.sent|..] == before + delivered;
    forall k ensures SettledFor(p, s, base, u, keys + [kind], k) {
      assert SettledFor(p, s, base, t, keys, k);
      SelectAppend(OfKind(k), before, delivered);
      if k == kind {
        SelectAll(OfKind(k), delivered);
      } else {
        SelectNone(OfKind(k), delivered);
      }
    }
  }

  lemma {:induction false} SettleAll(p: Policy, link: Link, s: State, base: State, keys: seq<string>)
    requires WellFormed(p, s)
    requires forall k | k in keys :: k in s.queues && QueueOf(base, k).items == []
    requires Ordering.NoRepeats(keys)
    ensures Settled(p, s, base, AddAll(p, link, base, Contents(s.queues, keys)), keys)
  {
    if keys == [] {
      assert base.sent[|base.sent|..] == [];
      forall k ensures SettledFor(p, s, base, base, [], k) {
        SelectNone(OfKind(k), []);
      }
    } else {
      var n := |keys| - 1;
      var front := keys[..n];
      SettleAll(p, link, s, base, front);
      AddAllAppend(p, link, base, Contents(s.queues, front), s.queues[keys[n]].items);
      SettleOne(p, link, s, base, AddAll(p, link, base, Contents(s.queues, front)), front, keys[n]);
      assert front + [keys[n]] == keys;
    }
  }

  /** Of one metric: everything that was pending is now delivered or everything is still pending, in
      the same order and with the same high-water mark. */
  ghost predicate WholeOrKept(s: State, t: State, kind: string)
    requires s.sent <= t.sent
  {
    var before, after := QueueOf(s, kind), QueueOf(t, kind);
    var delivered := Select(OfKind(kind), t.sent[|s.sent|..]);
    && after.peak == before.peak
    && ((delivered == [] && after.items == before.items) || (delivered == before.items && after.items == []))
  }

  /** A timer round delivers each sub-buffer whole and in order, or leaves it as it was. */
  lemma RoundSettles(p: Policy, link: Link, s: State)
    requires WellFormed(p, s)
    ensures RoundOutcome(s, TimerRound(p, link, s))
  {
    hide AddAll, Buffered, WellFormed, RoundOutcome, Drained, TimerRound;
    RoundInCases(p, link, s);
    if Buffered(s) == [] || link(s.attempts) {
      RoundDelivers(p, link, s);
    } else {
      RoundKeeps(p, link, s);
    }
  }

  ghost predicate RoundOutcome(s: State, t: State) {
    && t.queues.Keys == s.queues.Keys && t.dropped == s.dropped && s.sent <= t.sent
    && forall k :: WholeOrKept(s, t, k)
  }

  lemma RoundDelivers(p: Policy, link: Link, s: State)
    requires WellFormed(p, s) && (Buffered(s) == [] || link(s.attempts))
    ensures RoundOutcome(s, TimerRound(p, link, s))
  {
    hide AddAll, Select, Buffered;
    var batch, t := Buffered(s), TimerRound(p, link, s);
    assert t.sent[|s.sent|..] == batch;
    forall k ensures WholeOrKept(s, t, k) {
      BufferedOfKind(p, s, k);
      SelectNone(OfKind(k), []);
    }
  }

  lemma RoundKeeps(p: Policy, link: Link, s: State)
    requires WellFormed(p, s) && Buffered(s) != [] && !link(s.attempts)
    ensures RoundOutcome(s, TimerRound(p, link, s))
  {
    hide AddAll, Buffered, WellFormed, Settled, WholeOrKept, Contents;
    var keys := Ordering.InOrder(s.queues.Keys);
    var base, t := Drained(s).(attempts := s.attempts + 1), TimerRound(p, link, s);
    assert forall k | k in keys :: k in s.queues && QueueOf(base, k).items == [];
    BufferedIsContents(s);
    SettleAll(p, link, s, base, keys);
    SettledKeys(p, s, base, t, keys);
    assert t.queues.Keys == s.queues.Keys;
    forall k ensures WholeOrKept(s, t, k) {
      SettledInRound(p, s, base, t, keys, k);
    }
  }

  lemma SettledKeys(p: Policy, s: State, base: State, t: State, keys: seq<string>)
    requires Settled(p, s, base, t, keys)
    requires base.queues.Keys == s.queues.Keys && forall k | k in keys :: k in s.queues
    ensures t.queues.Keys == s.queues.Keys && t.dropped == base.dropped && base.sent <= t.sent
  {
  }

  lemma SettledInRound(p: Policy, s: State, base: State, t: State, keys: seq<string>, k: string)
    requires WellFormed(p, s) && keys == Ordering.InOrder(s.queues.Keys) && Settled(p, s, base, t, keys)
    requires base.queues == Drained(s).queues && base.sent == s.sent <= t.sent
    ensures WholeOrKept(s, t, k)
  {
    hide Select;
    assert SettledFor(p, s, base, t, keys, k);
    if k in s.queues {
      assert QueueOk(p, k, s.queues[k]);
    }
  }

  lemma BufferedIsContents(s: State)
    ensures Buffered(s) == Contents(s.queues, Ordering.InOrder(s.queues.Keys))
  {
  }

  // ---------- A failing round ----------

  ghost predicate DownFrom(link: Link, n: nat) {
    forall i: nat | i >= n :: !link(i)
  }

  lemma {:induction false} NothingSentWhileDown(p: Policy, link: Link, s: State, ms: seq<Message>)
    requires DownFrom(link, s.attempts)
    ensures AddAll(p, link, s, ms).sent == s.sent
    decreases ms
  {
    if ms == [] {
    } else {
      var t := Add(p, link, s, ms[0]);
      assert t.attempts >= s.attempts && t.sent == s.sent;
      NothingSentWhileDown(p, link, t, ms[1..]);
    }
  }

  /** A timer round in which every send fails puts every sub-buffer back as it was: same messages,
      same order, same high-water mark. */
  lemma FailedRoundChangesNothing(p: Policy, link: Link, s: State)
    requires WellFormed(p, s) && DownFrom(link, s.attempts)
    ensures var t := TimerRound(p, link, s);
      t.queues == s.queues && t.sent == s.sent && t.dropped == s.dropped
  {
    hide Buffered, AddAll;
    var t := TimerRound(p, link, s);
    RoundSettles(p, link, s);
    NothingSentWhileDown(p, link, Drained(s).(attempts := s.attempts + 1), Buffered(s));
    assert t.sent[|s.sent|..] == [];
    forall k | k in s.queues ensures t.queues[k] == s.queues[k] {
      assert WholeOrKept(s, t, k);
      SelectNone(OfKind(k), []);
    }
  }

  // ---------- Full sub-buffers ----------

  /** A sub-buffer is at capacity only when its latest flush was not delivered. */
  predicate FullOnlyAfterFailure(p: Policy, s: State) {
    forall k | k in s.queues && |s.queues[k].items| >= p.capacity :: k in s.flushed && !s.flushed[k]
  }

  lemma AddKeepsFullRule(p: Policy, link: Link, s: State, m: Message)
    requires WellFormed(p, s) && FullOnlyAfterFailure(p, s)
    ensures FullOnlyAfterFailure(p, Add(p, link, s, m))
  {
  }

  lemma {:induction false} AddAllKeepsFullRule(p: Policy, link: Link, s: State, ms: seq<Message>)
    requires WellFormed(p, s) && FullOnlyAfterFailure(p, s)
    ensures FullOnlyAfterFailure(p, AddAll(p, link, s, ms))
    decreases ms
  {
    if ms == [] {
    } else {
      AddKeepsFullRule(p, link, s, ms[0]);
      AddKeepsWellFormed(p, link, s, ms[0]);
      AddAllKeepsFullRule(p, link, Add(p, link, s, ms[0]), ms[1..]);
    }
  }

  /** A round that finds the link up delivers everything there is, in one attempt. */
  lemma RoundDeliversAll(p: Policy, link: Link, s: State)
    requires WellFormed(p, s) && Buffered(s) != [] && link(s.attempts)
    ensures var t := TimerRound(p, link, s);
      && t.attempts == s.attempts + 1 && t.sent == s.sent + Buffered(s) && t.dropped == s.dropped
      && t.queues.Keys == s.queues.Keys && forall k | k in t.queues :: t.queues[k].items == []
  {
    hide Buffered;
  }

  /** A round that has nothing to send makes no attempt. */
  lemma EmptyRound(p: Policy, link: Link, s: State)
    requires WellFormed(p, s) && forall k | k in s.queues :: s.queues[k].items == []
    ensures var t := TimerRound(p, link, s); t.attempts == s.attempts && t.sent == s.sent && t.queues == s.queues
  {
    hide TimerRound;
    RoundSettles(p, link, s);
    forall k | k in s.queues ensures TimerRound(p, link, s).queues[k] == s.queues[k] {
      assert WholeOrKept(s, TimerRound(p, link, s), k);
    }
    NothingToSend(p, s);
    RoundWithNothing(p, link, s);
  }

  lemma NothingToSend(p: Policy, s: State)
    requires WellFormed(p, s) && forall k | k in s.queues :: s.queues[k].items == []
    ensures Buffered(s) == []
  {
    hide Buffered;
    if Buffered(s) != [] {
      BufferedCount(p, s, Buffered(s)[0]);
    }
  }

  lemma RoundWithNothing(p: Policy, link: Link, s: State)
    requires Buffered(s) == []
    ensures TimerRound(p, link, s).attempts == s.attempts && TimerRound(p, link, s).sent == s.sent
  {
    hide Buffered;
  }
}
