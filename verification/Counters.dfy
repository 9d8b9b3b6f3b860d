/** The two shared counters as machines of atomic steps, over any number of callers. A caller is one
    acquisition at a time. */
module Counters {
  const MAX_BUILDS: nat := 8
  const MAX_QUEUE: nat := 64
  const TWO32: nat := 0x1_0000_0000

  function Count<T(==)>(s: seq<T>, x: T): nat {
    if s == [] then 0 else Count(s[..|s| - 1], x) + if s[|s| - 1] == x then 1 else 0
  }

  lemma {:induction false} CountUpdate<T>(s: seq<T>, i: nat, v: T, x: T)
    requires i < |s|
    ensures Count(s[i := v], x) == Count(s, x) - (if s[i] == x then 1 else 0) + (if v == x then 1 else 0)
  {
    var n := |s| - 1;
    if i == n {
      assert s[i := v][..n] == s[..n];
    } else {
      CountUpdate(s[..n], i, v, x);
      assert s[i := v][..n] == s[..n][i := v];
    }
  }

  lemma {:induction false} CountBound<T>(s: seq<T>, x: T, y: T)
    requires x != y
    ensures Count(s, x) + Count(s, y) <= |s|
  {
    if s != [] {
      CountBound(s[..|s| - 1], x, y);
    }
  }

  lemma {:induction false} CountAbsent<T>(s: seq<T>, x: T)
    requires x !in s
    ensures Count(s, x) == 0
  {
    if s != [] {
      CountAbsent(s[..|s| - 1], x);
    }
  }

  lemma {:induction false} CountPresent<T>(s: seq<T>, i: nat, x: T)
    requires i < |s| && s[i] == x
    ensures Count(s, x) >= 1
  {
    if i < |s| - 1 {
      CountPresent(s[..|s| - 1], i, x);
    }
  }

  // ---------- bundle-build slots: load, compare-and-swap, drop ----------

  datatype Builder = Idle | Loaded(seen: nat) | Building

  datatype Slots = Slots(active: nat, builders: seq<Builder>)

  datatype SlotStep = LoadActive(who: nat) | Swap(who: nat) | Drop(who: nat)

  predicate SlotEnabled(s: Slots, step: SlotStep) {
    && step.who < |s.builders|
    && match step
       case LoadActive(who) => s.builders[who].Idle?
       case Swap(who) => s.builders[who].Loaded?
       case Drop(who) => s.builders[who].Building?
  }

  /** The caller that loaded `active` at the limit is refused; a failed swap starts over. */
  function SlotTake(s: Slots, step: SlotStep): Slots
    requires SlotEnabled(s, step)
  {
    match step
    case LoadActive(who) =>
      if s.active >= MAX_BUILDS then s else s.(builders := s.builders[who := Loaded(s.active)])
    case Swap(who) =>
      if s.builders[who].seen == s.active then Slots(s.active + 1, s.builders[who := Building])
      else s.(builders := s.builders[who := Idle])
    case Drop(who) =>
      Slots(if s.active == 0 then 0xFFFF_FFFF_FFFF_FFFF else s.active - 1, s.builders[who := Idle])
  }

  ghost predicate SlotRun(s: Slots, steps: seq<SlotStep>, t: Slots)
    decreases |steps|
  {
    if steps == [] then s == t
    else SlotEnabled(s, steps[0]) && SlotRun(SlotTake(s, steps[0]), steps[1..], t)
  }

  /** Live guards are exactly what `active` counts, never more than eight, and a caller between its
      load and its swap saw fewer than eight. */
  ghost predicate SlotsInv(s: Slots) {
    && Count(s.builders, Building) == s.active <= MAX_BUILDS
    && forall i | 0 <= i < |s.builders| :: s.builders[i].Loaded? ==> s.builders[i].seen < MAX_BUILDS
  }

  lemma SlotStepKeepsInv(s: Slots, step: SlotStep)
    requires SlotsInv(s) && SlotEnabled(s, step)
    ensures SlotsInv(SlotTake(s, step))
  {
    hide Count;
    var who := step.who;
    CountUpdate(s.builders, who, Idle, Building);
    CountUpdate(s.builders, who, Building, Building);
    CountUpdate(s.builders, who, Loaded(s.active), Building);
    if s.builders[who].Building? {
      CountPresent(s.builders, who, Building);
    }
  }

  lemma {:induction false} SlotRunKeepsInv(s: Slots, steps: seq<SlotStep>, t: Slots)
    requires SlotsInv(s) && SlotRun(s, steps, t)
    ensures SlotsInv(t)
    decreases |steps|
  {
    hide SlotsInv, SlotTake, SlotEnabled;
    if steps != [] {
      SlotStepKeepsInv(s, steps[0]);
      SlotRunKeepsInv(SlotTake(s, steps[0]), steps[1..], t);
    }
  }

  /** In every interleaving from an unused counter: `active` is the number of live guards, at most
      eight, and a caller that loads is refused exactly when eight are live. */
  lemma BuildsNeverExceedSlots(builders: seq<Builder>, steps: seq<SlotStep>, t: Slots)
    requires forall i | 0 <= i < |builders| :: builders[i] == Idle
    requires SlotRun(Slots(0, builders), steps, t)
    ensures Count(t.builders, Building) == t.active <= 8
    ensures forall i | 0 <= i < |t.builders| && t.builders[i].Idle? ::
              SlotTake(t, LoadActive(i)) == t <==> Count(t.builders, Building) == 8
  {
    CountAbsent(builders, Building);
    SlotRunKeepsInv(Slots(0, builders), steps, t);
  }

  // ---------- the discovery queue: add, then back out ----------

  datatype Caller = Outside | BackingOut | Queued

  datatype WaitQueue = WaitQueue(depth: nat, callers: seq<Caller>)

  datatype QueueStep = Add(who: nat) | BackOut(who: nat) | Dequeue(who: nat)

  /** Only a caller that was admitted dequeues. */
  predicate QueueEnabled(q: WaitQueue, step: QueueStep) {
    && step.who < |q.callers|
    && match step
       case Add(who) => q.callers[who].Outside?
       case BackOut(who) => q.callers[who].BackingOut?
       case Dequeue(who) => q.callers[who].Queued?
  }

  /** Adding reads the old depth and decides by it; dequeuing saturates at zero. */
  function QueueTake(q: WaitQueue, step: QueueStep): WaitQueue
    requires step.who < |q.callers|
  {
    match step
    case Add(who) =>
      WaitQueue((q.depth + 1) % TWO32, q.callers[who := if q.depth >= MAX_QUEUE then BackingOut else Queued])
    case BackOut(who) =>
      WaitQueue(if q.depth == 0 then TWO32 - 1 else q.depth - 1, q.callers[who := Outside])
    case Dequeue(who) =>
      WaitQueue(if q.depth == 0 then 0 else q.depth - 1, q.callers[who := Outside])
  }

  ghost predicate QueueRun(q: WaitQueue, steps: seq<QueueStep>, t: WaitQueue)
    decreases |steps|
  {
    if steps == [] then q == t
    else QueueEnabled(q, steps[0]) && QueueRun(QueueTake(q, steps[0]), steps[1..], t)
  }

  /** The raw counter is the admitted callers plus those still backing out; admitted ones never
      exceed the limit. */
  ghost predicate QueueInv(q: WaitQueue) {
    && q.depth == Count(q.callers, Queued) + Count(q.callers, BackingOut)
    && Count(q.callers, Queued) <= MAX_QUEUE && |q.callers| < TWO32
  }

  lemma QueueStepKeepsInv(q: WaitQueue, step: QueueStep)
    requires QueueInv(q) && QueueEnabled(q, step)
    ensures QueueInv(QueueTake(q, step))
    ensures step.Add? ==> (QueueTake(q, step).callers[step.who] == Queued
                           <==> Count(q.callers, Queued) + Count(q.callers, BackingOut) < 64)
  {
    hide Count;
    var who, was := step.who, q.callers[step.who];
    CountUpdate(q.callers, who, Outside, Queued);
    CountUpdate(q.callers, who, Outside, BackingOut);
    CountUpdate(q.callers, who, Queued, Queued);
    CountUpdate(q.callers, who, Queued, BackingOut);
    CountUpdate(q.callers, who, BackingOut, Queued);
    CountUpdate(q.callers, who, BackingOut, BackingOut);
    CountPresent(q.callers, who, was);
    CountBound(QueueTake(q, step).callers, Queued, BackingOut);
  }

  lemma {:induction false} QueueRunKeepsInv(q: WaitQueue, steps: seq<QueueStep>, t: WaitQueue)
    requires QueueInv(q) && QueueRun(q, steps, t)
    ensures QueueInv(t)
    decreases |steps|
  {
    if steps != [] {
      hide QueueInv;
      QueueStepKeepsInv(q, steps[0]);
      QueueRunKeepsInv(QueueTake(q, steps[0]), steps[1..], t);
    }
  }

  /** In every interleaving of fewer than 2^32 callers from an empty queue: at most 64 callers are
      admitted, and the raw counter exceeds them by exactly those still backing out. */
  lemma AdmittedNeverExceedQueue(callers: seq<Caller>, steps: seq<QueueStep>, t: WaitQueue)
    requires |callers| < TWO32 && forall i | 0 <= i < |callers| :: callers[i] == Outside
    requires QueueRun(WaitQueue(0, callers), steps, t)
    ensures Count(t.callers, Queued) <= 64
    ensures t.depth == Count(t.callers, Queued) + Count(t.callers, BackingOut)
  {
    CountAbsent(callers, Queued);
    CountAbsent(callers, BackingOut);
    QueueRunKeepsInv(WaitQueue(0, callers), steps, t);
  }

  /** A dequeue keeps the account exactly when its caller is in it, or there is nothing to count. */
  lemma DequeueKeepsInvIff(q: WaitQueue, who: nat)
    requires QueueInv(q) && who < |q.callers|
    ensures QueueInv(QueueTake(q, Dequeue(who))) <==> q.callers[who] != Outside || q.depth == 0
  {
    hide Count;
    CountUpdate(q.callers, who, Outside, Queued);
    CountUpdate(q.callers, who, Outside, BackingOut);
    CountPresent(q.callers, who, q.callers[who]);
  }

  /** The proviso is needed: in a full queue, one dequeue by a caller that was never admitted lets a
      sixty-fifth caller in. */
  lemma StrayDequeueOverfills(q: WaitQueue, stray: nat, late: nat)
    requires QueueInv(q) && q.depth == MAX_QUEUE == Count(q.callers, Queued)
    requires stray < |q.callers| && q.callers[stray].Outside? && late < |q.callers| && q.callers[late].Outside?
    ensures var r := QueueTake(QueueTake(q, Dequeue(stray)), Add(late));
            Count(r.callers, Queued) == MAX_QUEUE + 1
  {
    hide Count;
    CountUpdate(q.callers, stray, Outside, Queued);
    CountUpdate(q.callers[stray := Outside], late, Queued, Queued);
  }

  lemma {:induction false} QueueRunAppend(q: WaitQueue, a: seq<QueueStep>, mid: WaitQueue, step: QueueStep)
    requires QueueRun(q, a, mid) && QueueEnabled(mid, step)
    ensures QueueRun(q, a + [step], QueueTake(mid, step))
    decreases |a|
  {
    hide QueueTake;
    if a == [] {
      assert a + [step] == [step] && [step][1..] == [];
    } else {
      assert (a + [step])[1..] == a[1..] + [step];
      QueueRunAppend(QueueTake(q, a[0]), a[1..], mid, step);
    }
  }

  /** The first `n` callers were admitted, the others are outside. */
  ghost predicate FirstAdmitted(q: WaitQueue, total: nat, n: nat) {
    && |q.callers| == total && q.depth == n
    && forall i | 0 <= i < total :: q.callers[i] == if i < n then Queued else Outside
  }

  lemma {:induction false} QueueFills(callers: seq<Caller>, n: nat) returns (steps: seq<QueueStep>, t: WaitQueue)
    requires n <= MAX_QUEUE && n <= |callers| < TWO32
    requires forall i | 0 <= i < |callers| :: callers[i] == Outside
    ensures QueueRun(WaitQueue(0, callers), steps, t) && FirstAdmitted(t, |callers|, n) && QueueInv(t)
    ensures Count(t.callers, Queued) == n
  {
    if n == 0 {
      steps, t := [], WaitQueue(0, callers);
      CountAbsent(callers, Queued);
      CountAbsent(callers, BackingOut);
    } else {
      hide Count, QueueRun;
      var before, mid := QueueFills(callers, n - 1);
      steps, t := before + [Add(n - 1)], QueueTake(mid, Add(n - 1));
      QueueRunAppend(WaitQueue(0, callers), before, mid, Add(n - 1));
      QueueStepKeepsInv(mid, Add(n - 1));
      CountUpdate(mid.callers, n - 1, Queued, Queued);
    }
  }

  /** With enough callers the full queue is reached from the empty one, and a stray dequeue then lets a
      sixty-fifth caller in. */
  lemma OverfillIsReached(callers: seq<Caller>) returns (steps: seq<QueueStep>, full: WaitQueue)
    requires MAX_QUEUE < |callers| < TWO32 && forall i | 0 <= i < |callers| :: callers[i] == Outside
    ensures QueueRun(WaitQueue(0, callers), steps, full)
    ensures |full.callers| == |callers| && full.callers[|callers| - 1].Outside?
    ensures var late := |callers| - 1;
            Count(QueueTake(QueueTake(full, Dequeue(late)), Add(late)).callers, Queued) == MAX_QUEUE + 1
  {
    hide Count, QueueRun;
    steps, full := QueueFills(callers, MAX_QUEUE);
    StrayDequeueOverfills(full, |callers| - 1, |callers| - 1);
  }
}
