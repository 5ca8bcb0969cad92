/** The single-producer/single-consumer ring as a protocol of atomic steps.

    `head` and `tail` are 64-bit words shared by two agents. Each agent loads the
    other side's counter in one step and tests its (by then possibly stale) copy in
    a later one, so every interleaving of the two is a sequence of the steps below.
    `published` and `taken` are history: all slot contents ever published, and how
    many of them were released. No step's outcome depends on them. */
module RingProtocol {
  import opened Bits

  // What the producer is doing: nothing; inside `Acquire`, holding a copy of `tail`;
  // or owning the slot that `Acquire` returned.
  datatype Producer =
    | ProducerIdle
    | Acquiring(tailSeen: nat, takenSeen: nat)
    | Writing

  // What the consumer is doing: nothing; inside `Read`, holding a copy of `head`;
  // or owning the slot that `Read` returned.
  datatype Consumer =
    | ConsumerIdle
    | Peeking(headSeen: nat, publishedSeen: nat)
    | Reading

  datatype Ring<S> = Ring(
    head: nat, tail: nat, slots: seq<S>,
    producer: Producer, consumer: Consumer,
    published: seq<S>, taken: nat)

  function Empty<S>(slots: seq<S>): Ring<S> {
    Ring(0, 0, slots, ProducerIdle, ConsumerIdle, [], 0)
  }

  /** Which slot a 64-bit index selects: `index & (slotCount - 1)`. */
  function SlotIndex(index: nat, slotCount: nat): (i: nat)
    requires slotCount > 0
    ensures i < slotCount
  {
    And(index, slotCount - 1)
  }

  // ---- The atomic steps ----

  function LoadTail<S>(r: Ring<S>): Ring<S>
    requires r.producer.ProducerIdle?
  {
    r.(producer := Acquiring(r.tail, r.taken))
  }

  /** `Acquire` decides on the copy of `tail` it loaded. */
  predicate SeesFull<S>(r: Ring<S>)
    requires r.producer.Acquiring?
  {
    Sub64(r.head, r.producer.tailSeen) >= |r.slots|
  }

  function TestFull<S>(r: Ring<S>): Ring<S>
    requires r.producer.Acquiring?
  {
    r.(producer := if SeesFull(r) then ProducerIdle else Writing)
  }

  function Held<S>(r: Ring<S>): S
    requires |r.slots| > 0
  {
    r.slots[SlotIndex(r.head, |r.slots|)]
  }

  function Write<S>(r: Ring<S>, content: S): Ring<S>
    requires r.producer.Writing? && |r.slots| > 0
  {
    r.(slots := r.slots[SlotIndex(r.head, |r.slots|) := content])
  }

  function Publish<S>(r: Ring<S>): Ring<S>
    requires r.producer.Writing? && |r.slots| > 0
  {
    r.(head := (r.head + 1) % WORD64, producer := ProducerIdle,
       published := r.published + [Held(r)])
  }

  function LoadHead<S>(r: Ring<S>): Ring<S>
    requires r.consumer.ConsumerIdle?
  {
    r.(consumer := Peeking(r.head, |r.published|))
  }

  /** `Read` decides on the copy of `head` it loaded. */
  predicate SeesEmpty<S>(r: Ring<S>)
    requires r.consumer.Peeking?
  {
    r.consumer.headSeen == r.tail
  }

  function TestEmpty<S>(r: Ring<S>): Ring<S>
    requires r.consumer.Peeking?
  {
    r.(consumer := if SeesEmpty(r) then ConsumerIdle else Reading)
  }

  function Front<S>(r: Ring<S>): S
    requires |r.slots| > 0
  {
    r.slots[SlotIndex(r.tail, |r.slots|)]
  }

  function Release<S>(r: Ring<S>): Ring<S>
    requires r.consumer.Reading?
  {
    r.(tail := (r.tail + 1) % WORD64, consumer := ConsumerIdle, taken := r.taken + 1)
  }

  // ---- The invariant ----

  ghost predicate ProducerInv<S>(r: Ring<S>)
    requires r.taken <= |r.published|
  {
    match r.producer
    case ProducerIdle => true
    case Acquiring(tailSeen, takenSeen) =>
      tailSeen == takenSeen % WORD64 && takenSeen <= r.taken && |r.published| <= takenSeen + |r.slots|
    case Writing => |r.published| < r.taken + |r.slots|
  }

  ghost predicate ConsumerInv<S>(r: Ring<S>) {
    match r.consumer
    case ConsumerIdle => true
    case Peeking(headSeen, publishedSeen) =>
      headSeen == publishedSeen % WORD64 && r.taken <= publishedSeen <= |r.published|
    case Reading => r.taken < |r.published|
  }

  /** What holds between any two atomic steps. The slot count is a 32-bit power of two. */
  ghost predicate Inv<S>(r: Ring<S>) {
    && IsPow2(|r.slots|) && 0 < |r.slots| < WORD32
    && r.taken <= |r.published| <= r.taken + |r.slots|
    && r.head == |r.published| % WORD64
    && r.tail == r.taken % WORD64
    && (forall i :: r.taken <= i < |r.published| ==> r.slots[i % |r.slots|] == r.published[i])
    && ProducerInv(r)
    && ConsumerInv(r)
  }

  /** The bounded FIFO queue the ring stands for. */
  function Queue<S>(r: Ring<S>): seq<S>
    requires r.taken <= |r.published|
  {
    r.published[r.taken..]
  }

  // ---- Counter arithmetic survives the wrap past 2^64 ----

  /** For every power-of-two slot count, masking the wrapped counter selects the slot that
      the unbounded counter selects modulo the slot count. */
  lemma MaskedIndexIsModulo(count: nat, slotCount: nat)
    requires IsPow2(slotCount) && 0 < slotCount < WORD32
    ensures SlotIndex(count % WORD64, slotCount) == count % slotCount
  {
    var k: nat :| slotCount == Pow2(k);
    MaskIsMod(count % WORD64, k);
    var m := Pow2DividesWord(slotCount);
    ModOfMod(count, slotCount, m);
  }

  /** Distinct in-flight indices use distinct slots, whatever the counters wrapped to. */
  lemma InFlightSlotsDistinct(i: nat, j: nat, slotCount: nat)
    requires IsPow2(slotCount) && 0 < slotCount < WORD32
    requires i < j < i + slotCount
    ensures SlotIndex(i % WORD64, slotCount) != SlotIndex(j % WORD64, slotCount)
  {
    MaskedIndexIsModulo(i, slotCount);
    MaskedIndexIsModulo(j, slotCount);
    ResiduesDiffer(i, j, slotCount);
  }

  /** The 64-bit fullness test agrees with the unbounded counters, and a test that reports
      full saw exactly `slotCount` unreleased slots at the moment `tail` was loaded. */
  lemma FullTestExact<S>(r: Ring<S>)
    requires Inv(r) && r.producer.Acquiring?
    ensures SeesFull(r) <==> |r.published| - r.producer.takenSeen == |r.slots|
  {
    DistanceSurvivesWrap(|r.published|, r.producer.takenSeen);
  }

  /** The 64-bit emptiness test agrees with the unbounded counters. */
  lemma EmptyTestExact<S>(r: Ring<S>)
    requires Inv(r) && r.consumer.Peeking?
    ensures SeesEmpty(r) <==> r.consumer.publishedSeen == r.taken
  {
    DistanceSurvivesWrap(r.consumer.publishedSeen, r.taken);
    DistanceSurvivesWrap(r.taken, r.taken);
  }

  /** The consumer's slot holds the oldest queued block for as long as it owns it. */
  lemma FrontIsOldest<S>(r: Ring<S>)
    requires Inv(r) && r.consumer.Reading?
    ensures Front(r) == Queue(r)[0] == r.published[r.taken]
  {
    MaskedIndexIsModulo(r.taken, |r.slots|);
  }

  /** The slot being filled is none of the slots the consumer may read. */
  lemma WriterOwnsItsSlot<S>(r: Ring<S>, i: nat)
    requires Inv(r) && r.producer.Writing? && r.taken <= i < |r.published|
    ensures SlotIndex(r.head, |r.slots|) != SlotIndex(i % WORD64, |r.slots|)
  {
    InFlightSlotsDistinct(i, |r.published|, |r.slots|);
  }

  // ---- Every step keeps the invariant and acts on the queue as a FIFO would ----

  lemma WriteInvisible<S>(r: Ring<S>, content: S)
    requires Inv(r) && r.producer.Writing?
    ensures Inv(Write(r, content)) && Queue(Write(r, content)) == Queue(r)
    ensures Held(Write(r, content)) == content
    ensures r.consumer.Reading? ==> Front(Write(r, content)) == Front(r)
  {
    MaskedIndexIsModulo(|r.published|, |r.slots|);
    forall i | r.taken <= i < |r.published|
      ensures Write(r, content).slots[i % |r.slots|] == r.published[i]
    {
      ResiduesDiffer(i, |r.published|, |r.slots|);
    }
    if r.consumer.Reading? {
      WriterOwnsItsSlot(r, r.taken);
    }
  }

  lemma PublishEnqueues<S>(r: Ring<S>)
    requires Inv(r) && r.producer.Writing?
    ensures Inv(Publish(r))
    ensures |Queue(r)| < |r.slots| && Queue(Publish(r)) == Queue(r) + [Held(r)]
  {
    MaskedIndexIsModulo(|r.published|, |r.slots|);
    IncrementWraps(|r.published|);
  }

  lemma ReleaseDequeues<S>(r: Ring<S>)
    requires Inv(r) && r.consumer.Reading?
    ensures Inv(Release(r))
    ensures Queue(r) == [Front(r)] + Queue(Release(r))
  {
    FrontIsOldest(r);
    IncrementWraps(r.taken);
  }

  lemma LoadsInvisible<S>(r: Ring<S>)
    requires Inv(r)
    ensures r.producer.ProducerIdle? ==> Inv(LoadTail(r)) && Queue(LoadTail(r)) == Queue(r)
    ensures r.consumer.ConsumerIdle? ==> Inv(LoadHead(r)) && Queue(LoadHead(r)) == Queue(r)
  {
  }

  lemma TestsInvisible<S>(r: Ring<S>)
    requires Inv(r)
    ensures r.producer.Acquiring? ==> Inv(TestFull(r)) && Queue(TestFull(r)) == Queue(r)
    ensures r.consumer.Peeking? ==> Inv(TestEmpty(r)) && Queue(TestEmpty(r)) == Queue(r)
  {
    if r.producer.Acquiring? {
      FullTestExact(r);
    }
    if r.consumer.Peeking? {
      EmptyTestExact(r);
    }
  }

  // ---- Refinement over whole runs ----

  datatype RingEvent<S> =
    | DoLoadTail | DoTestFull | DoWrite(content: S) | DoPublish
    | DoLoadHead | DoTestEmpty | DoRelease

  predicate RingEnabled<S>(r: Ring<S>, e: RingEvent<S>) {
    match e
    case DoLoadTail => r.producer.ProducerIdle?
    case DoTestFull => r.producer.Acquiring?
    case DoWrite(_) => r.producer.Writing? && |r.slots| > 0
    case DoPublish => r.producer.Writing? && |r.slots| > 0
    case DoLoadHead => r.consumer.ConsumerIdle?
    case DoTestEmpty => r.consumer.Peeking?
    case DoRelease => r.consumer.Reading?
  }

  function RingStep<S>(r: Ring<S>, e: RingEvent<S>): Ring<S>
    requires RingEnabled(r, e)
  {
    match e
    case DoLoadTail => LoadTail(r)
    case DoTestFull => TestFull(r)
    case DoWrite(content) => Write(r, content)
    case DoPublish => Publish(r)
    case DoLoadHead => LoadHead(r)
    case DoTestEmpty => TestEmpty(r)
    case DoRelease => Release(r)
  }

  /** Performing the steps `events`, each of them enabled when its turn comes, leads from `r` to `r'`. */
  ghost predicate IsRingRun<S>(r: Ring<S>, events: seq<RingEvent<S>>, r': Ring<S>)
    decreases |events|
  {
    if events == [] then r' == r
    else RingEnabled(r, events[0]) && IsRingRun(RingStep(r, events[0]), events[1..], r')
  }

  // What a bounded FIFO queue is asked to do.
  datatype Action<S> = Enqueue(item: S) | Dequeue(item: S) | Silent

  /** The queue action a step performs. A `Dequeue` names the item the consumer was looking at. */
  function ActionOf<S>(r: Ring<S>, e: RingEvent<S>): Action<S>
    requires |r.slots| > 0
  {
    match e
    case DoPublish => Enqueue(Held(r))
    case DoRelease => Dequeue(Front(r))
    case _ => Silent
  }

  ghost function ActionsOf<S>(r: Ring<S>, events: seq<RingEvent<S>>, r': Ring<S>): seq<Action<S>>
    requires IsRingRun(r, events, r') && |r.slots| > 0
    decreases |events|
  {
    if events == [] then []
    else [ActionOf(r, events[0])] + ActionsOf(RingStep(r, events[0]), events[1..], r')
  }

  /** The specification: a queue of at most `capacity` items takes `q` to `q'` by these actions. */
  ghost predicate FifoAccepts<S>(capacity: nat, q: seq<S>, actions: seq<Action<S>>, q': seq<S>)
    decreases |actions|
  {
    if actions == [] then q' == q
    else match actions[0]
      case Silent => FifoAccepts(capacity, q, actions[1..], q')
      case Enqueue(x) => |q| < capacity && FifoAccepts(capacity, q + [x], actions[1..], q')
      case Dequeue(x) => q != [] && q[0] == x && FifoAccepts(capacity, q[1..], actions[1..], q')
  }

  lemma StepKeepsInv<S>(r: Ring<S>, e: RingEvent<S>)
    requires Inv(r) && RingEnabled(r, e)
    ensures Inv(RingStep(r, e)) && |RingStep(r, e).slots| == |r.slots|
    ensures match ActionOf(r, e)
      case Silent => Queue(RingStep(r, e)) == Queue(r)
      case Enqueue(x) => |Queue(r)| < |r.slots| && Queue(RingStep(r, e)) == Queue(r) + [x]
      case Dequeue(x) => Queue(r) == [x] + Queue(RingStep(r, e))
  {
    match e
    case DoLoadTail => LoadsInvisible(r);
    case DoTestFull => TestsInvisible(r);
    case DoWrite(content) => WriteInvisible(r, content);
    case DoPublish => PublishEnqueues(r);
    case DoLoadHead => LoadsInvisible(r);
    case DoTestEmpty => TestsInvisible(r);
    case DoRelease => ReleaseDequeues(r);
  }

  /** The ring refines a bounded FIFO: in every interleaving of producer and consumer steps,
      what is published and released is a behaviour of a queue of `slotCount` items. */
  lemma {:induction false} RingRefinesFifo<S>(r: Ring<S>, events: seq<RingEvent<S>>, r': Ring<S>)
    requires Inv(r) && IsRingRun(r, events, r')
    ensures Inv(r') && |r'.slots| == |r.slots|
    ensures FifoAccepts(|r.slots|, Queue(r), ActionsOf(r, events, r'), Queue(r'))
    decreases |events|
  {
    if events == [] {
    } else {
      var next := RingStep(r, events[0]);
      StepKeepsInv(r, events[0]);
      RingRefinesFifo(next, events[1..], r');
      var actions := ActionsOf(r, events, r');
      assert actions[0] == ActionOf(r, events[0]);
      assert actions[1..] == ActionsOf(next, events[1..], r');
      if actions[0].Dequeue? {
        assert Queue(r)[1..] == Queue(next);
      }
    }
  }

  lemma EmptyRingInv<S>(slots: seq<S>)
    requires IsPow2(|slots|) && 0 < |slots| < WORD32
    ensures Inv(Empty(slots)) && Queue(Empty(slots)) == []
  {
  }

  lemma {:induction false} TakenGrows<S>(r: Ring<S>, events: seq<RingEvent<S>>, r': Ring<S>)
    requires IsRingRun(r, events, r')
    ensures r.taken <= r'.taken
    decreases |events|
  {
    if events == [] {
    } else {
      TakenGrows(RingStep(r, events[0]), events[1..], r');
    }
  }

  /** A published slot is not rewritten before its release: whatever was queued and is still
      unreleased at the end of a run stands unchanged in its slot. */
  lemma {:induction false} PublishedSlotsStand<S>(r: Ring<S>, events: seq<RingEvent<S>>, r': Ring<S>, i: nat)
    requires Inv(r) && IsRingRun(r, events, r')
    requires r'.taken <= i < |r.published| && r.taken <= i
    ensures i < |r'.published| && r'.published[i] == r.published[i]
    ensures |r'.slots| == |r.slots|
    ensures r'.slots[SlotIndex(i % WORD64, |r.slots|)] == r.slots[SlotIndex(i % WORD64, |r.slots|)]
    decreases |events|
  {
    MaskedIndexIsModulo(i, |r.slots|);
    if events == [] {
    } else {
      var next := RingStep(r, events[0]);
      StepKeepsInv(r, events[0]);
      TakenGrows(next, events[1..], r');
      PublishedSlotsStand(next, events[1..], r', i);
    }
  }
}
