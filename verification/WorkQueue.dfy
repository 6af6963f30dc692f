/** The bounded drop-tail queue of wqueue.h, under which every link, switch, host and socket of the
    simulator sits. */
module WorkQueue {
  import opened Bytes

  const MAX_QUEUE_LENGTH := 20

  /** `size() >= max_entries` compares an unsigned size with a signed field: a negative maximum wraps
      to a huge one. */
  function Limit(maxEntries: int): (limit: int)
  {
    if maxEntries < 0 then maxEntries + TWO_TO_THE_64 else maxEntries
  }

  /** The queue after an `add`: a full queue silently drops the item. */
  function Offer<T>(queue: seq<T>, limit: int, item: T): seq<T> {
    if |queue| >= limit then queue else queue + [item]
  }

  /** An item is refused only by a full queue, and a full queue refuses every item. With the 32-bit maximum
      of the source, a queue of less than 2^63 items is full when it holds the maximum, and never when the
      maximum is negative. */
  lemma RefusedIffFull<T>(queue: seq<T>, maxEntries: int, item: T)
    requires -0x8000_0000 <= maxEntries < 0x8000_0000 && |queue| < 0x8000_0000_0000_0000
    ensures Offer(queue, Limit(maxEntries), item) == if 0 <= maxEntries <= |queue| then queue else queue + [item]
  {
  }

  /** Offering items one after another. */
  function OfferAll<T>(queue: seq<T>, limit: int, items: seq<T>): seq<T> {
    if items == [] then queue else Offer(OfferAll(queue, limit, items[..|items| - 1]), limit, items[|items| - 1])
  }

  /** As many items as there is room for stay, in order; the ones after them are dropped. */
  lemma {:induction false} FirstItemsStay<T>(queue: seq<T>, limit: int, items: seq<T>)
    requires |queue| <= limit
    ensures OfferAll(queue, limit, items)
            == queue + if |queue| + |items| <= limit then items else items[..limit - |queue|]
  {
    if items != [] {
      var front, last := items[..|items| - 1], items[|items| - 1];
      FirstItemsStay(queue, limit, front);
      if |queue| + |items| <= limit {
        assert queue + front + [last] == queue + items;
      }
    }
  }

  class WQueue<T> {
    var queue: seq<T>
    var maxEntries: int

    constructor ()
      ensures queue == [] && maxEntries == 20
    {
      queue := [];
      maxEntries := MAX_QUEUE_LENGTH;
    }

    method SetMaxSize(maxValue: int)
      modifies this`maxEntries
      ensures maxEntries == maxValue
    {
      maxEntries := maxValue;
    }

    method Add(item: T)
      modifies this`queue
      ensures queue == Offer(old(queue), Limit(maxEntries), item)
      ensures 0 <= maxEntries <= |old(queue)| ==> queue == old(queue)
      ensures |old(queue)| < maxEntries ==> queue == old(queue) + [item]
    {
      if |queue| >= Limit(maxEntries) {
        return;
      }
      queue := queue + [item];
    }

    /** The part of `remove` after any wait: `front` of an empty list is undefined. */
    method Remove() returns (item: T)
      requires queue != []
      modifies this`queue
      ensures [item] + queue == old(queue)
    {
      item := queue[0];
      queue := queue[1..];
    }
  }
}

/** The lock and condition-variable protocol of the queue: any number of producers, `|consumers|`
    consumers. A step is one critical section; there are no spurious wakeups. */
module WorkQueueProtocol {
  import opened WorkQueue

  /** A consumer is outside `remove`, or inside its `wait` with or without a signal to return. */
  datatype Consumer = Running | Sleeping(signalled: bool)

  /** An item that was dropped, and how many were queued at the time. */
  datatype Refusal<T> = Refusal(item: T, queued: nat)

  datatype State<T> = State(
    queue: seq<T>,
    limit: int,
    consumers: seq<Consumer>,
    offers: nat,
    accepted: seq<T>,
    refused: seq<Refusal<T>>,
    removed: seq<T>)

  /** `Add` names the sleeper `notify_one` picks; it is ignored when nobody sleeps unsignalled. */
  datatype Event<T> = Add(item: T, woken: nat) | CallRemove(i: nat) | WakeUp(i: nat)

  function Start<T>(limit: int, consumers: nat): State<T> {
    State([], limit, seq(consumers, i => Running), 0, [], [], [])
  }

  predicate CanNotify<T>(s: State<T>, i: nat) {
    i < |s.consumers| && s.consumers[i] == Sleeping(false)
  }

  ghost predicate Enabled<T>(s: State<T>, e: Event<T>) {
    match e
    case Add(_, woken) => CanNotify(s, woken) || forall i :: !CanNotify(s, i)
    case CallRemove(i) => i < |s.consumers| && s.consumers[i].Running?
    case WakeUp(i) => i < |s.consumers| && s.consumers[i] == Sleeping(true) && s.queue != []
  }

  /** Consumer `i` takes the front item and leaves `remove`. */
  function Pop<T>(s: State<T>, i: nat): State<T>
    requires i < |s.consumers| && s.queue != []
  {
    s.(queue := s.queue[1..], removed := s.removed + [s.queue[0]], consumers := s.consumers[i := Running])
  }

  ghost function Next<T>(s: State<T>, e: Event<T>): State<T>
    requires Enabled(s, e)
  {
    match e
    case Add(item, woken) =>
      var t := s.(queue := Offer(s.queue, s.limit, item), offers := s.offers + 1);
      if t.queue == s.queue then t.(refused := s.refused + [Refusal(item, |s.queue|)])
      else
        var t := t.(accepted := s.accepted + [item]);
        if CanNotify(s, woken) then t.(consumers := s.consumers[woken := Sleeping(true)]) else t
    case CallRemove(i) =>
      if s.queue == [] then s.(consumers := s.consumers[i := Sleeping(false)]) else Pop(s, i)
    case WakeUp(i) => Pop(s, i)
  }

  ghost predicate Step<T(!new)>(s: State<T>, t: State<T>) {
    exists e: Event<T> :: Enabled(s, e) && t == Next(s, e)
  }

  ghost predicate IsRun<T(!new)>(run: seq<State<T>>, limit: int, consumers: nat) {
    && |run| > 0
    && run[0] == Start(limit, consumers)
    && forall i :: 0 <= i < |run| - 1 ==> Step(run[i], run[i + 1])
  }

  /** A consumer that has been signalled is about to take the front of an empty list. */
  ghost predicate PopsEmpty<T>(s: State<T>) {
    s.queue == [] && exists i :: 0 <= i < |s.consumers| && s.consumers[i] == Sleeping(true)
  }

  /** What any number of consumers and producers keep. */
  ghost predicate Conserves<T>(s: State<T>) {
    && s.accepted == s.removed + s.queue
    && s.offers == |s.accepted| + |s.refused|
    && (0 <= s.limit ==> |s.queue| <= s.limit && forall r :: r in s.refused ==> r.queued == s.limit)
  }

  /** What a single consumer adds: no wakeup is lost, and none is for nothing. */
  ghost predicate SingleConsumerInvariant<T>(s: State<T>) {
    forall i :: 0 <= i < |s.consumers| && s.consumers[i].Sleeping? ==>
      (s.consumers[i].signalled <==> s.queue != [])
  }

  lemma StepConserves<T(!new)>(s: State<T>, e: Event<T>)
    requires Enabled(s, e) && Conserves(s)
    ensures Conserves(Next(s, e)) && Next(s, e).limit == s.limit && |Next(s, e).consumers| == |s.consumers|
  {
  }

  lemma StepKeepsSingle<T(!new)>(s: State<T>, e: Event<T>)
    requires Enabled(s, e) && Conserves(s) && |s.consumers| <= 1 && SingleConsumerInvariant(s)
    ensures SingleConsumerInvariant(Next(s, e))
  {
    if e.Add? && |s.consumers| == 1 && s.consumers[0] == Sleeping(false) {
      assert CanNotify(s, 0);
    }
  }

  lemma StepKeeps<T(!new)>(s: State<T>, t: State<T>)
    requires Step(s, t) && Conserves(s)
    ensures Conserves(t) && t.limit == s.limit && |t.consumers| == |s.consumers|
    ensures |s.consumers| <= 1 && SingleConsumerInvariant(s) ==> SingleConsumerInvariant(t)
  {
    var e: Event<T> :| Enabled(s, e) && t == Next(s, e);
    StepConserves(s, e);
    if |s.consumers| <= 1 && SingleConsumerInvariant(s) {
      StepKeepsSingle(s, e);
    }
  }

  /** Accepted items come out in order, none lost and none twice, and the queue never outgrows its
      maximum, whatever the interleaving. */
  lemma {:induction false} QueueConservesItems<T(!new)>(run: seq<State<T>>, limit: int, consumers: nat, k: nat)
    requires IsRun(run, limit, consumers) && k < |run|
    ensures Conserves(run[k]) && run[k].limit == limit && |run[k].consumers| == consumers
    ensures consumers <= 1 ==> SingleConsumerInvariant(run[k])
  {
    if k > 0 {
      QueueConservesItems(run, limit, consumers, k - 1);
      assert Step(run[k - 1], run[k - 1 + 1]);
      StepKeeps(run[k - 1], run[k]);
    }
  }

  /** With one consumer no wakeup is lost: whenever an item waits, the consumer can take it now. */
  lemma NoLostWakeup<T(!new)>(run: seq<State<T>>, limit: int, k: nat)
    requires IsRun(run, limit, 1) && k < |run| && run[k].queue != []
    ensures |run[k].consumers| == 1
    ensures exists e: Event<T> :: Enabled(run[k], e) && Next(run[k], e) == Pop(run[k], 0)
  {
    QueueConservesItems(run, limit, 1, k);
    var e: Event<T> := if run[k].consumers[0].Running? then CallRemove(0) else WakeUp(0);
    assert Enabled(run[k], e) && Next(run[k], e) == Pop(run[k], 0);
  }

  /** Two consumers: the first sleeps, an item wakes it, the second takes the item first. */
  lemma TwoConsumersPopEmpty<T(!new)>(limit: int, consumers: nat, item: T) returns (run: seq<State<T>>)
    requires consumers >= 2 && limit > 0
    ensures IsRun(run, limit, consumers) && PopsEmpty(run[|run| - 1])
  {
    var s0: State<T> := Start(limit, consumers);
    var s1 := Next(s0, CallRemove(0));
    assert CanNotify(s1, 0);
    var s2 := Next(s1, Add(item, 0));
    var s3 := Next(s2, CallRemove(1));
    run := [s0, s1, s2, s3];
    assert Enabled(s0, CallRemove(0)) && Enabled(s1, Add(item, 0)) && Enabled(s2, CallRemove(1));
    assert s3.consumers[0] == Sleeping(true);
  }

  /** `remove` never takes the front of an empty list exactly when the queue has at most one consumer
      (or is of size 0 and never holds anything). */
  lemma NeverPopsEmptyIffSingleConsumer<T(!new)>(limit: int, consumers: nat, item: T)
    requires limit >= 0
    ensures (forall run: seq<State<T>>, k: nat :: IsRun(run, limit, consumers) && k < |run| ==> !PopsEmpty(run[k]))
            <==> consumers <= 1 || limit == 0
  {
    if consumers <= 1 || limit == 0 {
      forall run: seq<State<T>>, k: nat | IsRun(run, limit, consumers) && k < |run|
        ensures !PopsEmpty(run[k])
      {
        QueueConservesItems(run, limit, consumers, k);
        if limit == 0 {
          NothingSignalsAnEmptyQueue(run, consumers, k);
        }
      }
    } else {
      var run := TwoConsumersPopEmpty(limit, consumers, item);
      assert PopsEmpty(run[|run| - 1]);
    }
  }

  lemma {:induction false} NothingSignalsAnEmptyQueue<T(!new)>(run: seq<State<T>>, consumers: nat, k: nat)
    requires IsRun(run, 0, consumers) && k < |run|
    ensures run[k].queue == [] && run[k].limit == 0
    ensures forall i :: 0 <= i < |run[k].consumers| ==> run[k].consumers[i] != Sleeping(true)
  {
    if k > 0 {
      NothingSignalsAnEmptyQueue(run, consumers, k - 1);
      assert Step(run[k - 1], run[k - 1 + 1]);
      var e: Event<T> :| Enabled(run[k - 1], e) && run[k] == Next(run[k - 1], e);
    }
  }
}

/** Queues in series, as a frame meets them: link, switch queue, link, host queue, socket. A thread
    takes the front of one queue and adds it to the next, which may drop it. */
module WorkQueueChain {
  import opened WorkQueue

  datatype Chain<T> = Chain(stages: seq<seq<T>>, limits: seq<int>, sent: seq<T>, delivered: seq<T>)

  predicate WellFormed<T>(c: Chain<T>) {
    |c.stages| == |c.limits| > 0
  }

  /** One thing that can happen to the chain; stage 0 is the one the sender adds to. */
  ghost predicate Step<T(!new)>(c: Chain<T>, d: Chain<T>)
    requires WellFormed(c)
  {
    || (exists item: T :: d == Send(c, item))
    || (exists i: nat :: i < |c.stages| && c.stages[i] != [] && d == Advance(c, i))
  }

  function Send<T>(c: Chain<T>, item: T): Chain<T>
    requires WellFormed(c)
  {
    c.(stages := c.stages[0 := Offer(c.stages[0], c.limits[0], item)], sent := c.sent + [item])
  }

  /** The front of stage `i` moves to the next stage, or is delivered when `i` is the last. */
  function Advance<T>(c: Chain<T>, i: nat): Chain<T>
    requires WellFormed(c) && i < |c.stages| && c.stages[i] != []
  {
    var item, popped := c.stages[i][0], c.stages[i := c.stages[i][1..]];
    if i == |c.stages| - 1 then
      c.(stages := popped, delivered := c.delivered + [item])
    else
      c.(stages := popped[i + 1 := Offer(c.stages[i + 1], c.limits[i + 1], item)])
  }

  ghost predicate IsRun<T(!new)>(run: seq<Chain<T>>, limits: seq<int>) {
    && |run| > 0 && |limits| > 0
    && run[0] == Chain(seq(|limits|, i => []), limits, [], [])
    && forall i :: 0 <= i < |run| - 1 ==> WellFormed(run[i]) && Step(run[i], run[i + 1])
  }

  /** `a` is `b` with some items left out. */
  ghost predicate IsSubsequence<T(!new)>(a: seq<T>, b: seq<T>) {
    a == [] || (b != [] &&
      (IsSubsequence(a, b[..|b| - 1])
      || (a[|a| - 1] == b[|b| - 1] && IsSubsequence(a[..|a| - 1], b[..|b| - 1]))))
  }

  /** What is inside the chain, the item nearest delivery first. */
  function Flow<T>(stages: seq<seq<T>>): seq<T> {
    if stages == [] then [] else Flow(stages[1..]) + stages[0]
  }

  lemma {:induction false} FlowOfParts<T>(a: seq<seq<T>>, b: seq<seq<T>>)
    ensures Flow(a + b) == Flow(b) + Flow(a)
  {
    if a == [] {
      assert a + b == b;
    } else {
      FlowOfParts(a[1..], b);
      assert (a + b)[1..] == a[1..] + b;
    }
  }

  lemma {:induction false} SubsequenceOfLonger<T(!new)>(a: seq<T>, b: seq<T>, item: T)
    requires IsSubsequence(a, b)
    ensures IsSubsequence(a, b + [item])
    ensures IsSubsequence(a + [item], b + [item])
  {
    assert (b + [item])[..|b|] == b && (a + [item])[..|a|] == a;
  }

  lemma {:induction false} SubsequenceWithout<T(!new)>(before: seq<T>, item: T, after: seq<T>, b: seq<T>)
    requires IsSubsequence(before + [item] + after, b)
    ensures IsSubsequence(before + after, b)
    decreases |b|
  {
    var a := before + [item] + after;
    var front := b[..|b| - 1];
    if IsSubsequence(a, front) {
      SubsequenceWithout(before, item, after, front);
    } else if after == [] {
      assert a[..|a| - 1] == before == before + after;
    } else {
      var rest := after[..|after| - 1];
      assert a[..|a| - 1] == before + [item] + rest;
      SubsequenceWithout(before, item, rest, front);
      assert (before + after)[..|before + after| - 1] == before + rest;
    }
  }

  lemma FlowOfStages<T>(low: seq<seq<T>>, a: seq<T>, b: seq<T>, high: seq<seq<T>>)
    ensures Flow(low + [a, b] + high) == Flow(high) + b + a + Flow(low)
  {
    FlowOfParts(low + [a, b], high);
    FlowOfParts(low, [a, b]);
    assert [a, b][1..] == [b] && [b][1..] == [];
    assert Flow([b]) == b;
    assert Flow([a, b]) == b + a;
    assert Flow(high) + (b + a + Flow(low)) == Flow(high) + b + a + Flow(low);
  }

  /** Removing the front of stage `i`, and setting the next stage. */
  lemma FlowAfterAdvance<T>(stages: seq<seq<T>>, i: nat, next: seq<T>) returns (before: seq<T>, after: seq<T>)
    requires i + 1 < |stages| && stages[i] != []
    ensures Flow(stages) == before + stages[i + 1] + [stages[i][0]] + after
    ensures Flow(stages[i := stages[i][1..]][i + 1 := next]) == before + next + after
  {
    var low, high, moved := stages[..i], stages[i + 2..], stages[i][1..];
    before, after := Flow(high), moved + Flow(low);
    FlowOfStages(low, stages[i], stages[i + 1], high);
    FlowOfStages(low, moved, next, high);
    assert stages == low + [stages[i], stages[i + 1]] + high;
    assert stages[i := moved][i + 1 := next] == low + [moved, next] + high;
    assert stages[i] == [stages[i][0]] + moved;
    assert before + stages[i + 1] + stages[i] + Flow(low) == before + stages[i + 1] + [stages[i][0]] + after;
    assert before + next + moved + Flow(low) == before + next + after;
  }

  lemma SendKeepsOrder<T(!new)>(c: Chain<T>, item: T)
    requires WellFormed(c) && IsSubsequence(c.delivered + Flow(c.stages), c.sent)
    ensures var d := Send(c, item); IsSubsequence(d.delivered + Flow(d.stages), d.sent)
  {
    var d := Send(c, item);
    var inside := c.delivered + Flow(c.stages);
    SubsequenceOfLonger(inside, c.sent, item);
    assert d.stages[1..] == c.stages[1..];
    if d.stages[0] == c.stages[0] {
      assert d.stages == c.stages;
    } else {
      assert d.delivered + Flow(d.stages) == inside + [item];
    }
  }

  lemma FlowWithLast<T>(front: seq<seq<T>>, last: seq<T>)
    ensures Flow(front + [last]) == last + Flow(front)
  {
    FlowOfParts(front, [last]);
    assert [last][1..] == [];
  }

  lemma DeliveryKeepsFlow<T>(c: Chain<T>)
    requires WellFormed(c) && c.stages[|c.stages| - 1] != []
    ensures var d := Advance(c, |c.stages| - 1); d.delivered + Flow(d.stages) == c.delivered + Flow(c.stages)
  {
    var i := |c.stages| - 1;
    var d, front, last := Advance(c, i), c.stages[..i], c.stages[i];
    FlowWithLast(front, last);
    FlowWithLast(front, last[1..]);
    assert c.stages == front + [last] && d.stages == front + [last[1..]];
    assert last == [last[0]] + last[1..];
  }

  lemma HandoverKeepsOrder<T(!new)>(c: Chain<T>, i: nat)
    requires WellFormed(c) && i + 1 < |c.stages| && c.stages[i] != []
    requires IsSubsequence(c.delivered + Flow(c.stages), c.sent)
    ensures var d := Advance(c, i); IsSubsequence(d.delivered + Flow(d.stages), d.sent)
  {
    var d, item := Advance(c, i), c.stages[i][0];
    var next := Offer(c.stages[i + 1], c.limits[i + 1], item);
    var before, after := FlowAfterAdvance(c.stages, i, next);
    var ahead := c.delivered + before + next;
    if next == c.stages[i + 1] {
      assert c.delivered + Flow(c.stages) == ahead + [item] + after;
      SubsequenceWithout(ahead, item, after, c.sent);
    } else {
      assert c.delivered + Flow(c.stages) == ahead + after;
    }
    assert d.delivered + Flow(d.stages) == ahead + after;
  }

  lemma StepKeepsOrder<T(!new)>(c: Chain<T>, d: Chain<T>)
    requires WellFormed(c) && Step(c, d) && IsSubsequence(c.delivered + Flow(c.stages), c.sent)
    ensures WellFormed(d) && d.limits == c.limits
    ensures IsSubsequence(d.delivered + Flow(d.stages), d.sent)
  {
    if item: T :| d == Send(c, item) {
      SendKeepsOrder(c, item);
    } else {
      var i: nat :| i < |c.stages| && c.stages[i] != [] && d == Advance(c, i);
      if i == |c.stages| - 1 {
        DeliveryKeepsFlow(c);
      } else {
        HandoverKeepsOrder(c, i);
      }
    }
  }

  /** Whatever the queues drop, what comes out is what went in, in order, with items left out. */
  lemma {:induction false} ChainDeliversSubsequence<T(!new)>(run: seq<Chain<T>>, limits: seq<int>, k: nat)
    requires IsRun(run, limits) && k < |run|
    ensures WellFormed(run[k]) && run[k].limits == limits
    ensures IsSubsequence(run[k].delivered + Flow(run[k].stages), run[k].sent)
    ensures IsSubsequence(run[k].delivered, run[k].sent)
  {
    if k == 0 {
      EmptyStagesFlow(run[0].stages);
    } else {
      ChainDeliversSubsequence(run, limits, k - 1);
      assert Step(run[k - 1], run[k - 1 + 1]);
      StepKeepsOrder(run[k - 1], run[k]);
    }
    PrefixOfSubsequence(run[k].delivered, Flow(run[k].stages), run[k].sent);
  }

  lemma {:induction false} EmptyStagesFlow<T>(stages: seq<seq<T>>)
    requires forall i :: 0 <= i < |stages| ==> stages[i] == []
    ensures Flow(stages) == []
  {
    if stages != [] {
      EmptyStagesFlow(stages[1..]);
    }
  }

  lemma {:induction false} PrefixOfSubsequence<T(!new)>(a: seq<T>, rest: seq<T>, b: seq<T>)
    requires IsSubsequence(a + rest, b)
    ensures IsSubsequence(a, b)
    decreases |rest|
  {
    if rest == [] {
      assert a + rest == a;
    } else {
      var last := rest[|rest| - 1];
      assert a + rest == (a + rest[..|rest| - 1]) + [last] + [];
      SubsequenceWithout(a + rest[..|rest| - 1], last, [], b);
      assert (a + rest[..|rest| - 1]) + [] == a + rest[..|rest| - 1];
      PrefixOfSubsequence(a, rest[..|rest| - 1], b);
    }
  }

  // Without loss

  /** Every stage has room for one more. */
  ghost predicate HasRoom<T>(c: Chain<T>)
    requires WellFormed(c)
  {
    forall i :: 0 <= i < |c.stages| ==> |c.stages[i]| < c.limits[i]
  }

  /** With room in the next stage, nothing is lost on the way. */
  lemma StepKeepsAll<T(!new)>(c: Chain<T>, d: Chain<T>)
    requires WellFormed(c) && HasRoom(c) && Step(c, d) && c.delivered + Flow(c.stages) == c.sent
    ensures WellFormed(d) && d.delivered + Flow(d.stages) == d.sent
  {
    if item: T :| d == Send(c, item) {
      assert d.stages[0] == c.stages[0] + [item] && d.stages[1..] == c.stages[1..];
    } else {
      var i: nat :| i < |c.stages| && c.stages[i] != [] && d == Advance(c, i);
      if i == |c.stages| - 1 {
        DeliveryKeepsFlow(c);
      } else {
        HandoverKeepsAll(c, i);
      }
    }
  }

  lemma HandoverKeepsAll<T>(c: Chain<T>, i: nat)
    requires WellFormed(c) && HasRoom(c) && i + 1 < |c.stages| && c.stages[i] != []
    ensures var d := Advance(c, i); d.delivered + Flow(d.stages) == c.delivered + Flow(c.stages)
  {
    var item, next := c.stages[i][0], c.stages[i + 1] + [c.stages[i][0]];
    var before, after := FlowAfterAdvance(c.stages, i, next);
    assert before + next + after == before + c.stages[i + 1] + [item] + after;
  }

  /** A chain whose stages never fill delivers exactly what was sent, in order, save what is inside. */
  lemma {:induction false} ChainWithRoomDeliversAll<T(!new)>(run: seq<Chain<T>>, limits: seq<int>, k: nat)
    requires IsRun(run, limits) && k < |run|
    requires forall i :: 0 <= i < k ==> WellFormed(run[i]) && HasRoom(run[i])
    ensures run[k].delivered + Flow(run[k].stages) == run[k].sent
  {
    if k == 0 {
      EmptyStagesFlow(run[0].stages);
    } else {
      ChainWithRoomDeliversAll(run, limits, k - 1);
      assert Step(run[k - 1], run[k - 1 + 1]);
      StepKeepsAll(run[k - 1], run[k]);
    }
  }
}
