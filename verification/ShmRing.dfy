/** The shared-memory ring as the object the audio thread calls, and the geometry of its mapping. */
module ShmRing {
  import opened Bits
  import opened RingProtocol

  class ShmRing<S> {
    /** Shared 64-bit counters and slots. */
    var head: nat
    var tail: nat
    const slots: array<S>

    /** Which half of a call pair each side is in, and history. */
    ghost var producer: Producer
    ghost var consumer: Consumer
    ghost var published: seq<S>
    ghost var taken: nat

    ghost function Model(): Ring<S>
      reads this, slots
    {
      Ring(head, tail, slots[..], producer, consumer, published, taken)
    }

    /** The blocks a reader would get, oldest first. */
    ghost function Unread(): seq<S>
      requires Inv(Model())
      reads this, slots
    {
      Queue(Model())
    }

    constructor (memory: array<S>)
      requires IsPow2(memory.Length) && 0 < memory.Length < WORD32
      ensures slots == memory && Model() == Empty(memory[..])
      ensures Inv(Model()) && Unread() == []
    {
      head, tail, slots := 0, 0, memory;
      producer, consumer, published, taken := ProducerIdle, ConsumerIdle, [], 0;
      EmptyRingInv(memory[..]);
    }

    function SlotAt(index: nat): (i: nat)
      requires slots.Length > 0
      ensures i < slots.Length
    {
      SlotIndex(index, slots.Length)
    }

    /** The index of a writable slot, or -1 when the ring is full. */
    method Acquire() returns (slot: int)
      requires Inv(Model()) && producer.ProducerIdle?
      modifies this`producer
      ensures Model() == TestFull(LoadTail(old(Model())))
      ensures Inv(Model()) && Unread() == old(Unread())
      ensures slot == if |Unread()| < slots.Length then SlotIndex(head, slots.Length) else -1
      ensures producer.Writing? <==> slot >= 0
    {
      LoadsInvisible(Model());
      var h := head;
      var t := tail;
      producer := Acquiring(t, taken);
      FullTestExact(Model());
      TestsInvisible(Model());
      if Sub64(h, t) >= slots.Length {
        producer := ProducerIdle;
        return -1;
      }
      producer := Writing;
      return SlotAt(h);
    }

    /** The caller stores into the slot it acquired. */
    method Fill(slot: int, content: S)
      requires Inv(Model()) && producer.Writing? && slot == SlotIndex(head, slots.Length)
      modifies slots
      ensures Model() == Write(old(Model()), content)
      ensures Inv(Model()) && Unread() == old(Unread()) && slots[slot] == content
      ensures consumer.Reading? ==> Front(Model()) == old(Front(Model()))
    {
      WriteInvisible(Model(), content);
      slots[slot] := content;
      assert Model() == Write(old(Model()), content);
    }

    method Publish(slot: int)
      requires Inv(Model()) && producer.Writing? && slot == SlotIndex(head, slots.Length)
      modifies this`head, this`producer, this`published
      ensures Model() == RingProtocol.Publish(old(Model()))
      ensures Inv(Model()) && Unread() == old(Unread()) + [slots[slot]]
      ensures producer.ProducerIdle?
    {
      PublishEnqueues(Model());
      published := published + [slots[slot]];
      head := (head + 1) % WORD64;
      producer := ProducerIdle;
    }

    /** The index of the next readable slot, or -1 when the ring is empty. */
    method Read() returns (slot: int)
      requires Inv(Model()) && consumer.ConsumerIdle?
      modifies this`consumer
      ensures Model() == TestEmpty(LoadHead(old(Model())))
      ensures Inv(Model()) && Unread() == old(Unread())
      ensures slot == if Unread() != [] then SlotIndex(tail, slots.Length) else -1
      ensures slot >= 0 ==> slots[slot] == Unread()[0]
      ensures consumer.Reading? <==> slot >= 0
    {
      LoadsInvisible(Model());
      var t := tail;
      var h := head;
      consumer := Peeking(h, |published|);
      EmptyTestExact(Model());
      TestsInvisible(Model());
      if h == t {
        consumer := ConsumerIdle;
        return -1;
      }
      consumer := Reading;
      FrontIsOldest(Model());
      return SlotAt(t);
    }

    method Release(slot: int)
      requires Inv(Model()) && consumer.Reading? && slot == SlotIndex(tail, slots.Length)
      modifies this`tail, this`consumer, this`taken
      ensures Model() == RingProtocol.Release(old(Model()))
      ensures Inv(Model()) && old(Unread()) == [slots[slot]] + Unread()
      ensures consumer.ConsumerIdle?
    {
      ReleaseDequeues(Model());
      tail := (tail + 1) % WORD64;
      taken := taken + 1;
      consumer := ConsumerIdle;
    }
  }

  // ---- Geometry of a created mapping ----

  const PAGE_BYTES: nat := 4096
  const LINE_BYTES: nat := 64
  const HEADER_BYTES: nat := 64
  const CONTROL_BYTES: nat := 160

  /** `v != 0 && (v & (v - 1)) == 0`. */
  predicate IsPowerOfTwo(v: nat) {
    v != 0 && And(v, v - 1) == 0
  }

  /** `(n + k - 1) & ~(k - 1)` in 64-bit arithmetic. */
  function RoundUp(n: nat, k: nat): nat
    requires 0 < k < WORD64
  {
    And((n + k - 1) % WORD64, Not64(k - 1))
  }

  /** The size of a header and its payload, and what 64-bit arithmetic makes of it. */
  function TrueBlockBytes(frames: nat, channels: nat): nat {
    HEADER_BYTES + frames * channels * 4
  }

  function BlockBytes(frames: nat, channels: nat): nat {
    TrueBlockBytes(frames, channels) % WORD64
  }

  datatype Mapping = Mapping(totalBytes: nat, slotCount: nat, slotBytes: nat)

  datatype Created = Created(mapping: Mapping) | InvalidArgument

  /** The sizes `CreateNew` computes and stores. The stored slot size is the 64-bit one cut to 32 bits. */
  function CreateNew(frames: nat, channels: nat, slotCount: nat): Created {
    if !IsPowerOfTwo(slotCount) then InvalidArgument
    else
      var slotBytes := RoundUp(BlockBytes(frames, channels), LINE_BYTES);
      var logicalBytes := (CONTROL_BYTES + slotBytes * slotCount) % WORD64;
      Created(Mapping(RoundUp(logicalBytes, PAGE_BYTES), slotCount, slotBytes % WORD32))
  }

  function SlotOffset(m: Mapping, i: nat): nat {
    CONTROL_BYTES + i * m.slotBytes
  }

  predicate SlotSound(m: Mapping, blockBytes: nat, i: nat) {
    && 160 <= SlotOffset(m, i)
    && SlotOffset(m, i) + blockBytes <= SlotOffset(m, i + 1) <= m.totalBytes
  }

  /** Every slot has room for its block, lies behind the control block and inside the mapping, and
      ends where the next one starts. */
  ghost predicate Sound(m: Mapping, blockBytes: nat) {
    forall i: nat :: i < m.slotCount ==> SlotSound(m, blockBytes, i)
  }

  lemma CreateAcceptsPowersOfTwo(frames: nat, channels: nat, slotCount: nat)
    ensures CreateNew(frames, channels, slotCount).Created? <==> IsPow2(slotCount)
  {
    PowerOfTwoTest(slotCount);
  }

  lemma LargestMultiple(a: nat, k: nat)
    requires k > 0
    ensures a - k < a - a % k <= a && (a - a % k) % k == 0
  {
    assert a == k * (a / k) + a % k;
    DivModUnique(a - a % k, k, a / k, 0);
  }

  /** The rounding expression gives the least multiple of `2^b` that is at least `n`. */
  lemma RoundUpIsLeastMultiple(n: nat, b: nat, k: nat)
    requires b < 64 && k == Pow2(b) && n + k <= WORD64
    ensures k < WORD64
    ensures n <= RoundUp(n, k) < n + k && RoundUp(n, k) % k == 0
  {
    WordSizes();
    Pow2StrictlyMonotone(b, 64);
    var a := n + k - 1;
    DivModUnique(a, WORD64, 0, a);
    assert RoundUp(n, k) == a - a % k by {
      ClearLowBits(a, 64, b);
    }
    LargestMultiple(a, k);
  }

  lemma RoundsToLines(n: nat)
    requires n + LINE_BYTES <= WORD64
    ensures n <= RoundUp(n, LINE_BYTES) < n + LINE_BYTES && RoundUp(n, LINE_BYTES) % LINE_BYTES == 0
  {
    assert Pow2(6) == LINE_BYTES;
    RoundUpIsLeastMultiple(n, 6, LINE_BYTES);
  }

  lemma RoundsToPages(n: nat)
    requires n + PAGE_BYTES <= WORD64
    ensures n <= RoundUp(n, PAGE_BYTES) < n + PAGE_BYTES && RoundUp(n, PAGE_BYTES) % PAGE_BYTES == 0
  {
    assert Pow2(6) == LINE_BYTES;
    Pow2Add(6, 6);
    RoundUpIsLeastMultiple(n, 12, PAGE_BYTES);
  }

  /** A true block size `need` that fits 32 bits after rounding is stored as that multiple of 64. */
  lemma SmallSizeStored(need: nat)
    requires need + LINE_BYTES <= WORD32
    ensures need % WORD64 == need
    ensures var s := RoundUp(need, LINE_BYTES);
      need <= s < WORD32 && s % WORD32 == s && s % LINE_BYTES == 0
  {
    RoundsToLines(need);
    DivModUnique(need, WORD64, 0, need);
    DivModUnique(RoundUp(need, LINE_BYTES), WORD32, 0, RoundUp(need, LINE_BYTES));
  }

  /** The only multiple of 64 from just below 2^32 on and less than a line further is 2^32 itself. */
  lemma LastLine(s: nat, need: nat)
    requires need < WORD32 < need + LINE_BYTES && need <= s < need + LINE_BYTES && s % LINE_BYTES == 0
    ensures s % WORD32 == 0
  {
    var q := s / LINE_BYTES;
    assert s == LINE_BYTES * q && WORD32 == LINE_BYTES * 0x400_0000;
    assert q == 0x400_0000;
    DivModUnique(s, WORD32, 1, 0);
  }

  /** Any larger one is cut to less than a block. */
  lemma LargeSizeCut(need: nat)
    requires need + LINE_BYTES > WORD32
    ensures RoundUp(need % WORD64, LINE_BYTES) % WORD32 < need
  {
    if need < WORD32 {
      DivModUnique(need, WORD64, 0, need);
      RoundsToLines(need);
      LastLine(RoundUp(need, LINE_BYTES), need);
    }
  }

  lemma ProductMonotone(a: nat, b: nat, c: nat)
    requires a <= b
    ensures a * c <= b * c
  {
  }

  /** The total size of a ring of slots this small is computed without wrapping. */
  lemma TotalDoesNotWrap(slotBytes: nat, slotCount: nat)
    requires slotBytes < WORD32 && slotCount < WORD32
    ensures var logical := CONTROL_BYTES + slotBytes * slotCount;
      logical % WORD64 == logical && logical <= RoundUp(logical, PAGE_BYTES)
  {
    ProductMonotone(slotBytes, WORD32 - 1, slotCount);
    var logical := CONTROL_BYTES + slotBytes * slotCount;
    assert logical + PAGE_BYTES <= WORD64;
    RoundsToPages(logical);
  }

  lemma SlotsInside(m: Mapping, need: nat, i: nat)
    requires need <= m.slotBytes && i < m.slotCount
    requires CONTROL_BYTES + m.slotBytes * m.slotCount <= m.totalBytes
    ensures SlotSound(m, need, i)
  {
    assert (i + 1) * m.slotBytes == i * m.slotBytes + m.slotBytes;
    ProductMonotone(i + 1, m.slotCount, m.slotBytes);
    assert m.slotBytes * m.slotCount == m.slotCount * m.slotBytes;
  }

  /** The sizes of a mapping whose block size `need` stays below 2^32 after rounding: slots are the least
      multiple of 64 bytes, and the whole is the least multiple of 4096 that holds them and the control block. */
  lemma CreatedSizes(frames: nat, channels: nat, slotCount: nat, need: nat)
    requires IsPow2(slotCount) && slotCount < WORD32
    requires need == 64 + 4 * (frames * channels) && need + 64 <= WORD32
    ensures CreateNew(frames, channels, slotCount).Created?
    ensures var m := CreateNew(frames, channels, slotCount).mapping;
      && m.slotCount == slotCount
      && need <= m.slotBytes < need + 64 && m.slotBytes % 64 == 0
      && 160 + m.slotBytes * slotCount <= m.totalBytes < 160 + m.slotBytes * slotCount + 4096
      && m.totalBytes % 4096 == 0
  {
    CreateAcceptsPowersOfTwo(frames, channels, slotCount);
    assert need == TrueBlockBytes(frames, channels);
    SmallSizeStored(need);
    RoundsToLines(need);
    var s := RoundUp(need, LINE_BYTES);
    TotalDoesNotWrap(s, slotCount);
    ProductMonotone(s, WORD32 - 1, slotCount);
    RoundsToPages(CONTROL_BYTES + s * slotCount);
  }

  /** With a block size (64 bytes of header and 4 a sample) that still fits 32 bits after rounding, every slot
      of a created mapping is sound; with any larger one the stored slot size is too small for a block, so
      no slot is. */
  lemma GeometrySoundExactly(frames: nat, channels: nat, slotCount: nat)
    requires IsPow2(slotCount) && slotCount < WORD32
    ensures CreateNew(frames, channels, slotCount).Created?
    ensures var need := 64 + 4 * (frames * channels);
      Sound(CreateNew(frames, channels, slotCount).mapping, need) <==> need + 64 <= WORD32
  {
    CreateAcceptsPowersOfTwo(frames, channels, slotCount);
    var m := CreateNew(frames, channels, slotCount).mapping;
    var need := TrueBlockBytes(frames, channels);
    assert need == 64 + 4 * (frames * channels);
    if need + LINE_BYTES <= WORD32 {
      CreatedSizes(frames, channels, slotCount, need);
      forall i: nat | i < slotCount
        ensures SlotSound(m, need, i)
      {
        SlotsInside(m, need, i);
      }
    } else {
      LargeSizeCut(need);
      assert m.slotBytes < need;
      assert !SlotSound(m, need, 0);
    }
  }

  lemma CutKeepsMultiple(s: nat)
    requires s % LINE_BYTES == 0
    ensures s % WORD32 % LINE_BYTES == 0
  {
    ModOfMod(s, LINE_BYTES, 0x400_0000);
    assert LINE_BYTES * 0x400_0000 == WORD32;
  }

  /** Wrapped or not, a rounded size is a multiple of 64, and stays one when it is cut to 32 bits. */
  lemma CutSizeIsMultiple(n: nat)
    ensures RoundUp(n, LINE_BYTES) % WORD32 % LINE_BYTES == 0
  {
    var a := (n + LINE_BYTES - 1) % WORD64;
    WordSizes();
    assert Pow2(6) == LINE_BYTES;
    ClearLowBits(a, 64, 6);
    LargestMultiple(a, LINE_BYTES);
    CutKeepsMultiple(RoundUp(n, LINE_BYTES));
  }

  lemma MultipleOfLine(i: nat, n: nat)
    requires n % LINE_BYTES == 0
    ensures (CONTROL_BYTES + i * n) % LINE_BYTES == 32
  {
    var q := n / LINE_BYTES;
    assert i * (LINE_BYTES * q) == LINE_BYTES * (i * q);
    DivModUnique(CONTROL_BYTES + i * n, LINE_BYTES, i * q + 2, 32);
  }

  /** Slots start 160 bytes in, so none is aligned to the 64 bytes its header type asks for. */
  lemma SlotsMisaligned(frames: nat, channels: nat, slotCount: nat, i: nat)
    requires IsPow2(slotCount)
    ensures CreateNew(frames, channels, slotCount).Created?
    ensures SlotOffset(CreateNew(frames, channels, slotCount).mapping, i) % LINE_BYTES == 32
  {
    CreateAcceptsPowersOfTwo(frames, channels, slotCount);
    CutSizeIsMultiple(BlockBytes(frames, channels));
    MultipleOfLine(i, CreateNew(frames, channels, slotCount).mapping.slotBytes);
  }
}
