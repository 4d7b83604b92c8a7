/**
 How an operation of the maths pipeline consumes its buffer: fixed blocks for a computation on count,
 windows of time for a computation on time. The laws hold over every run of the operation.
 */
module Windows {
  import opened Messages
  import opened Queues
  import opened Computations

  /** One operation on one metric: its computation and its own buffer. */
  datatype Operation = Operation(computation: Computation, queue: Queue)

  // ---------- Catching up ----------

  /** What a catch-up loop hands out, what it leaves, and when it says it last ran. */
  datatype Sweep = Sweep(batches: seq<seq<Message>>, rest: seq<Message>, last: nat)

  /** Starting from the last compute time, takes window after window until one is empty or the next one
      is not over yet; an empty window moves the last compute time to `now`. */
  function CatchUp(items: seq<Message>, last: nat, width: nat, now: nat): Sweep
    decreases |items|
  {
    var due := Select(UpTo(last + width), items);
    if due == [] then Sweep([], items, now)
    else
      var rest := Select(After(last + width), items);
      SelectLess(last + width, items);
      if now > last + width + width then
        var s := CatchUp(rest, last + width, width, now);
        Sweep([due] + s.batches, s.rest, s.last)
      else
        Sweep([due], rest, last + width)
  }

  /** A sweep that had handed out some batches before. */
  function Prepend(done: seq<seq<Message>>, s: Sweep): Sweep {
    s.(batches := done + s.batches)
  }

  /** One turn of the loop. */
  lemma CatchUpStep(done: seq<seq<Message>>, items: seq<Message>, last: nat, width: nat, now: nat)
    ensures var due := Select(UpTo(last + width), items);
      var rest := Select(After(last + width), items);
      Prepend(done, CatchUp(items, last, width, now))
      == if due == [] then Sweep(done, items, now)
         else if now > last + width + width then
           Prepend(done + [due], CatchUp(rest, last + width, width, now))
         else Sweep(done + [due], rest, last + width)
  {
    hide Select;
    var due := Select(UpTo(last + width), items);
    if due == [] {
      assert done + [] == done;
    } else if now > last + width + width {
      var s := CatchUp(Select(After(last + width), items), last + width, width, now);
      assert done + ([due] + s.batches) == done + [due] + s.batches;
    }
  }

  lemma SelectLess(limit: nat, items: seq<Message>)
    ensures |Select(UpTo(limit), items)| + |Select(After(limit), items)| == |items|
  {
    SelectPartition(limit, items);
    assert |multiset(Select(UpTo(limit), items)) + multiset(Select(After(limit), items))| == |multiset(items)|;
  }

  /** The end of the `i`-th window. */
  function Threshold(last: nat, width: nat, i: nat): nat {
    last + i * width
  }

  lemma ThresholdShift(last: nat, width: nat, i: nat)
    ensures Threshold(last + width, width, i) == Threshold(last, width, i + 1) == Threshold(last, width, i) + width
    ensures Threshold(last, width, 0) == last && Threshold(last, width, 1) == last + width
    ensures Threshold(last, width, i) >= last
  {
    assert (i + 1) * width == i * width + width;
  }

  /** The messages of the `i`-th window: for the first one everything old enough, for the others what is
      stamped after the previous window. */
  function Window(last: nat, width: nat, i: nat): Test {
    if i == 0 then UpTo(Threshold(last, width, 1))
    else Between(Threshold(last, width, i), Threshold(last, width, i + 1))
  }

  /** A sweep cuts the buffer up: batch `i` is exactly window `i`, in arrival order and never empty;
      what remains is exactly what is stamped after the last window; no window ends after `now`, and none
      but the first ends at `now`. The sweep stops when the next window is not over, or when it is empty. */
  ghost predicate Partitions(s: Sweep, items: seq<Message>, last: nat, width: nat, now: nat) {
    var k := |s.batches|;
    && (forall i | 0 <= i < k :: IsWindow(s.batches[i], items, last, width, i, now))
    && s.rest == Select(After(Threshold(last, width, k)), items)
    && ((k > 0 && s.last == Threshold(last, width, k) && now <= Threshold(last, width, k + 1))
        || (s.last == now && Select(Window(last, width, k), items) == []))
  }

  predicate IsWindow(batch: seq<Message>, items: seq<Message>, last: nat, width: nat, i: nat, now: nat) {
    && batch == Select(Window(last, width, i), items) && batch != []
    && if i == 0 then Threshold(last, width, 1) <= now else Threshold(last, width, i + 1) < now
  }

  lemma {:induction false} WindowsPartition(items: seq<Message>, last: nat, width: nat, now: nat)
    requires now >= last + width
    ensures Partitions(CatchUp(items, last, width, now), items, last, width, now)
    decreases |items|
  {
    hide Select, Threshold, Partitions;
    var due, rest := Select(UpTo(last + width), items), Select(After(last + width), items);
    SelectLess(last + width, items);
    if due == [] {
      NothingInWindow(items, last, width, now);
    } else if now > last + width + width {
      WindowsPartition(rest, last + width, width, now);
      EarlierWindow(items, last, width, now, CatchUp(rest, last + width, width, now));
    } else {
      OnlyWindow(items, last, width, now);
    }
  }

  lemma NothingInWindow(items: seq<Message>, last: nat, width: nat, now: nat)
    requires Select(UpTo(last + width), items) == []
    ensures Partitions(Sweep([], items, now), items, last, width, now)
  {
    hide Select, Threshold;
    ThresholdShift(last, width, 0);
    NothingDueBefore(last, last + width, items);
  }

  lemma OnlyWindow(items: seq<Message>, last: nat, width: nat, now: nat)
    requires Select(UpTo(last + width), items) != [] && last + width <= now <= last + width + width
    ensures Partitions(Sweep([Select(UpTo(last + width), items)], Select(After(last + width), items), last + width),
                       items, last, width, now)
  {
    hide Select, Threshold;
    ThresholdShift(last, width, 0);
    ThresholdShift(last, width, 1);
  }

  lemma EarlierWindow(items: seq<Message>, last: nat, width: nat, now: nat, t: Sweep)
    requires Select(UpTo(last + width), items) != [] && last + width + width < now
    requires Partitions(t, Select(After(last + width), items), last + width, width, now)
    ensures Partitions(Sweep([Select(UpTo(last + width), items)] + t.batches, t.rest, t.last), items, last, width, now)
  {
    hide Select, Threshold, Window, IsWindow;
    var k := |t.batches|;
    var batches := [Select(UpTo(last + width), items)] + t.batches;
    ThresholdShift(last, width, k);
    ThresholdShift(last, width, k + 1);
    ThresholdShift(last + width, width, k);
    LaterWindow(items, last, width, k);
    SelectWithin(After(last + width), After(Threshold(last + width, width, k)),
                 After(Threshold(last, width, k + 1)), items);
    forall i | 0 <= i < k + 1 ensures IsWindow(batches[i], items, last, width, i, now) {
      if i == 0 {
        FirstIsWindow(items, last, width, now);
      } else {
        assert IsWindow(t.batches[i - 1], Select(After(last + width), items), last + width, width, i - 1, now);
        LaterIsWindow(t.batches[i - 1], items, last, width, i - 1, now);
      }
    }
  }

  lemma FirstIsWindow(items: seq<Message>, last: nat, width: nat, now: nat)
    requires Select(UpTo(last + width), items) != [] && last + width <= now
    ensures IsWindow(Select(UpTo(last + width), items), items, last, width, 0, now)
  {
    hide Select, Threshold;
    ThresholdShift(last, width, 0);
  }

  lemma LaterIsWindow(batch: seq<Message>, items: seq<Message>, last: nat, width: nat, i: nat, now: nat)
    requires IsWindow(batch, Select(After(last + width), items), last + width, width, i, now)
    requires last + width + width < now
    ensures IsWindow(batch, items, last, width, i + 1, now)
  {
    hide Select, Threshold, Window;
    ThresholdShift(last + width, width, 0);
    LaterWindow(items, last, width, i);
    ThresholdShift(last, width, i + 1);
    ThresholdShift(last + width, width, i + 1);
  }

  lemma NothingDue(limit: nat, items: seq<Message>)
    requires Select(UpTo(limit), items) == []
    ensures Select(After(limit), items) == items
  {
    hide Select;
    SelectMembers(UpTo(limit), items);
    SelectAll(After(limit), items);
  }

  lemma NothingDueBefore(low: nat, limit: nat, items: seq<Message>)
    requires Select(UpTo(limit), items) == [] && low <= limit
    ensures Select(After(low), items) == items
  {
    hide Select;
    SelectMembers(UpTo(limit), items);
    SelectAll(After(low), items);
  }

  /** The windows of what the first one leaves are the later windows of the whole. */
  lemma LaterWindow(items: seq<Message>, last: nat, width: nat, i: nat)
    ensures Select(Window(last + width, width, i), Select(After(last + width), items))
         == Select(Window(last, width, i + 1), items)
  {
    hide Select, Threshold;
    ThresholdShift(last, width, i);
    ThresholdShift(last, width, i + 1);
    ThresholdShift(last, width, 1);
    ThresholdShift(last + width, width, i);
    ThresholdShift(last + width, width, 0);
    SelectWithin(After(last + width), Window(last + width, width, i), Window(last, width, i + 1), items);
  }

  /** The windows by their time stamps: in seconds, window `i` ends at `last + (i + 1) * width`. */
  lemma WindowsByTime(items: seq<Message>, last: nat, width: nat, now: nat)
    requires now >= last + width
    ensures var s := CatchUp(items, last, width, now);
      && (forall i | 0 <= i < |s.batches| :: InWindow(s.batches[i], items, last, width, i, now))
      && RestByTime(s, items, last, width, now)
  {
    hide Select, CatchUp, Threshold, Window, InWindow, RestByTime;
    var s := CatchUp(items, last, width, now);
    WindowsPartition(items, last, width, now);
    forall i | 0 <= i < |s.batches| ensures InWindow(s.batches[i], items, last, width, i, now) {
      assert IsWindow(s.batches[i], items, last, width, i, now);
      WindowByTime(s.batches[i], items, last, width, i, now);
    }
    SweepByTime(s, items, last, width, now);
  }

  lemma WindowByTime(batch: seq<Message>, items: seq<Message>, last: nat, width: nat, i: nat, now: nat)
    requires IsWindow(batch, items, last, width, i, now)
    ensures InWindow(batch, items, last, width, i, now)
  {
    hide Select, Threshold, Window;
    WindowMembers(items, last, width, i);
  }

  lemma SweepByTime(s: Sweep, items: seq<Message>, last: nat, width: nat, now: nat)
    requires Partitions(s, items, last, width, now)
    ensures RestByTime(s, items, last, width, now)
  {
    hide Select, Threshold, Window;
    var k := |s.batches|;
    SelectMembers(After(Threshold(last, width, k)), items);
    WindowMembers(items, last, width, k);
  }

  /** A batch is what is stamped within its window, which is over. */
  ghost predicate InWindow(batch: seq<Message>, items: seq<Message>, last: nat, width: nat, i: nat, now: nat) {
    && batch != [] && (if i == 0 then last + width <= now else last + (i + 1) * width < now)
    && forall m :: m in batch <==>
         m in items && m.timestamp <= last + (i + 1) * width && (i > 0 ==> m.timestamp > last + i * width)
  }

  /** The rest is what is stamped later; the next window is not over yet, or nothing is stamped within it. */
  ghost predicate RestByTime(s: Sweep, items: seq<Message>, last: nat, width: nat, now: nat) {
    var k := |s.batches|;
    && (forall m :: m in s.rest <==> m in items && m.timestamp > last + k * width)
    && ((k > 0 && s.last == last + k * width && now <= last + (k + 1) * width)
        || (s.last == now && forall m | m in s.rest :: m.timestamp > last + (k + 1) * width))
  }

  lemma WindowMembers(items: seq<Message>, last: nat, width: nat, i: nat)
    ensures forall m :: m in Select(Window(last, width, i), items) <==>
      m in items && m.timestamp <= last + (i + 1) * width && (i > 0 ==> m.timestamp > last + i * width)
    ensures Threshold(last, width, i) == last + i * width && Threshold(last, width, i + 1) == last + (i + 1) * width
    ensures Threshold(last, width, 1) == last + width
  {
    hide Select;
    SelectMembers(Window(last, width, i), items);
  }
}
