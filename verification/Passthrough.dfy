/** The audio thread's loop as the program it is, run while the two hosts stand still. The machine
    of module `DataPlane` takes the same steps with the hosts interleaved. */
module Passthrough {
  import opened Wrappers
  import opened RingProtocol
  import opened ChainSpec
  import opened DataPlane
  import opened StreamTheorems
  import S = ShmRing

  /** The plugin world, the unread output blocks and the two statistics. */
  datatype Tally<D> = Tally(dsp: D, out: seq<Block>, processed: nat, dropped: nat)

  /** What one iteration does with block `b`. `observe(k)` is what `Process` call number `k` observes. */
  function Iterated<D>(cfg: Config<D>, t: Tally<D>, b: Block, depth: nat, observe: nat -> Observation): Tally<D> {
    if |t.out| == depth then t.(dropped := t.dropped + 1)
    else
      var e := Emit(cfg, t.dsp, b, observe(t.processed));
      Tally(e.0, t.out + [e.1], t.processed + 1, t.dropped)
  }

  function Drained<D>(cfg: Config<D>, t: Tally<D>, q: seq<Block>, depth: nat, observe: nat -> Observation): Tally<D>
    decreases |q|
  {
    if q == [] then t else Drained(cfg, Iterated(cfg, t, q[0], depth, observe), q[1..], depth, observe)
  }

  /** The fates of `n` input blocks when the output ring has room for `room` more. */
  function QuietFates(n: nat, room: nat, depth: nat, from: nat, observe: nat -> Observation): (r: seq<Fate>)
    ensures |r| == n
  {
    seq(n, i requires 0 <= i < n => if i < room then Processed(observe(from + i)) else Dropped(depth))
  }

  lemma {:induction false} DrainedSnoc<D>(
    cfg: Config<D>, t: Tally<D>, q: seq<Block>, b: Block, depth: nat, observe: nat -> Observation)
    ensures Drained(cfg, t, q + [b], depth, observe) ==
      Iterated(cfg, Drained(cfg, t, q, depth, observe), b, depth, observe)
    decreases |q|
  {
    if q == [] {
      assert (q + [b])[1..] == [];
    } else {
      assert (q + [b])[1..] == q[1..] + [b];
      DrainedSnoc(cfg, Iterated(cfg, t, q[0], depth, observe), q[1..], b, depth, observe);
    }
  }

  lemma FatesSnoc(k: nat, room: nat, depth: nat, from: nat, observe: nat -> Observation)
    ensures QuietFates(k + 1, room, depth, from, observe) ==
      QuietFates(k, room, depth, from, observe) + [if k < room then Processed(observe(from + k)) else Dropped(depth)]
  {
  }

  /** One more block on a reference stream that has filled `room` as far as it goes. */
  lemma ReplaySnoc<D>(
    cfg: Config<D>, d: D, q: seq<Block>, b: Block, room: nat, depth: nat, from: nat, observe: nat -> Observation)
    ensures var before := Replay(cfg, d, q, QuietFates(|q|, room, depth, from, observe));
      Replay(cfg, d, q + [b], QuietFates(|q| + 1, room, depth, from, observe)) ==
        if |q| < room then
          var e := Emit(cfg, before.0, b, observe(from + |q|));
          (e.0, before.1 + [e.1])
        else before
  {
    var fates := QuietFates(|q|, room, depth, from, observe);
    FatesSnoc(|q|, room, depth, from, observe);
    ReplayIgnoresFuture(cfg, d, q, b, fates);
    ReplayExtends(cfg, d, q + [b], fates, if |q| < room then Processed(observe(from + |q|)) else Dropped(depth));
  }

  /** What the reference stream makes of the tally when `q` is all there is. */
  function Replayed<D>(cfg: Config<D>, t: Tally<D>, q: seq<Block>, depth: nat, observe: nat -> Observation): Tally<D>
    requires |t.out| <= depth
  {
    var room := depth - |t.out|;
    var run := Replay(cfg, t.dsp, q, QuietFates(|q|, room, depth, t.processed, observe));
    Tally(run.0, t.out + run.1, t.processed + Min(|q|, room), t.dropped + |q| - Min(|q|, room))
  }

  lemma ReplayedSnoc<D>(
    cfg: Config<D>, t: Tally<D>, q: seq<Block>, b: Block, depth: nat, observe: nat -> Observation)
    requires |t.out| <= depth && |Replayed(cfg, t, q, depth, observe).out| == |t.out| + Min(|q|, depth - |t.out|)
    ensures Replayed(cfg, t, q + [b], depth, observe) ==
      Iterated(cfg, Replayed(cfg, t, q, depth, observe), b, depth, observe)
  {
    ReplaySnoc(cfg, t.dsp, q, b, depth - |t.out|, depth, t.processed, observe);
  }

  /** With the hosts standing still, the blocks that fit the room left in the output ring are
      processed, in order and with the plugin state threaded through, and exactly the rest dropped. */
  lemma {:induction false} DrainedIsReplay<D>(
    cfg: Config<D>, t: Tally<D>, q: seq<Block>, depth: nat, observe: nat -> Observation)
    requires |t.out| <= depth
    ensures Drained(cfg, t, q, depth, observe) == Replayed(cfg, t, q, depth, observe)
    ensures |Drained(cfg, t, q, depth, observe).out| == |t.out| + Min(|q|, depth - |t.out|)
    decreases |q|
  {
    if q == [] {
    } else {
      var k := |q| - 1;
      assert q[..k] + [q[k]] == q;
      DrainedIsReplay(cfg, t, q[..k], depth, observe);
      DrainedSnoc(cfg, t, q[..k], q[k], depth, observe);
      ReplayedSnoc(cfg, t, q[..k], q[k], depth, observe);
    }
  }

  /** What one turn of the outer loop finds: a stop flag up, or the outcome of its wait. */
  datatype Turn = Turn(stop: bool, woken: bool)

  /** Some wait succeeds before a stop flag is seen. */
  predicate Wakes(turns: seq<Turn>) {
    turns != [] && !turns[0].stop && (turns[0].woken || Wakes(turns[1..]))
  }

  ghost predicate BlocksFit<D>(cfg: Config<D>, q: seq<Memory>) {
    forall i :: 0 <= i < |q| ==> |q[i].payload| == cfg.capacity && Fits(cfg, Content(q[i]))
  }

  lemma BlocksFitTail<D>(cfg: Config<D>, q: seq<Memory>)
    requires BlocksFit(cfg, q) && q != []
    ensures BlocksFit(cfg, q[1..])
  {
  }

  lemma {:induction false} WakesSnoc(turns: seq<Turn>, t: Turn)
    requires forall i :: 0 <= i < |turns| ==> !turns[i].stop
    ensures Wakes(turns + [t]) == (Wakes(turns) || (!t.stop && t.woken))
  {
    if turns == [] {
      assert (turns + [t])[1..] == [];
    } else {
      assert (turns + [t])[1..] == turns[1..] + [t];
      WakesSnoc(turns[1..], t);
    }
  }

  lemma WakesStep(turns: seq<Turn>, n: nat)
    requires n < |turns| && forall i :: 0 <= i < n ==> !turns[i].stop
    ensures !turns[n].stop ==> Wakes(turns[..n + 1]) == (Wakes(turns[..n]) || turns[n].woken)
    ensures turns[n].stop ==> !Wakes(turns[n..])
    ensures !turns[n].stop ==> Wakes(turns[n..]) == (turns[n].woken || Wakes(turns[n + 1..]))
  {
    assert turns[..n + 1] == turns[..n] + [turns[n]];
    WakesSnoc(turns[..n], turns[n]);
    assert turns[n..][1..] == turns[n + 1..];
  }

  class Passthrough<D> {
    const cfg: Config<D>
    const input: S.ShmRing<Memory>
    const output: S.ShmRing<Memory>
    var dsp: D
    var processed: nat
    var dropped: nat
    var signals: nat

    constructor (cfg: Config<D>, input: S.ShmRing<Memory>, output: S.ShmRing<Memory>, dsp: D)
      ensures this.cfg == cfg && this.input == input && this.output == output && this.dsp == dsp
      ensures processed == dropped == signals == 0
    {
      this.cfg, this.input, this.output, this.dsp := cfg, input, output, dsp;
      processed, dropped, signals := 0, 0, 0;
    }

    ghost predicate Ready()
      reads this, input, input.slots, output, output.slots
    {
      && input != output && input.slots != output.slots
      && Inv(input.Model()) && Inv(output.Model())
      && input.consumer.ConsumerIdle? && output.producer.ProducerIdle?
      && SlotsSized(cfg, output.Model())
      && BlocksFit(cfg, input.Unread())
    }

    /** One non-empty iteration: the block at the front is processed into the acquired slot. */
    method Forward(i: int, o: int, obs: Observation)
      requires input != output && input.slots != output.slots
      requires Inv(input.Model()) && input.consumer.Reading? && i == SlotIndex(input.tail, input.slots.Length)
      requires Inv(output.Model()) && output.producer.Writing? && o == SlotIndex(output.head, output.slots.Length)
      requires SlotsSized(cfg, output.Model())
      requires |input.slots[i].payload| == cfg.capacity && Fits(cfg, Content(input.slots[i]))
      modifies this`dsp, output.slots, output`head, output`producer, output`published
      ensures Inv(output.Model()) && SlotsSized(cfg, output.Model()) && output.producer.ProducerIdle?
      ensures var e := Emit(cfg, old(dsp), Content(input.slots[i]), obs);
        dsp == e.0 && Contents(output.Unread()) == Contents(old(output.Unread())) + [e.1]
    {
      var before := input.slots[i];
      var out := output.slots[o].(header := before.header.(reserved := ZEROED));
      assert |out.payload| == cfg.capacity;
      output.Fill(o, out);
      assert SampleCount(before.header) == |Content(before).payload|;
      assert before.header.channels == 1 ==> SampleCount(before.header) == before.header.frames;
      DispatchEmits(cfg, dsp, before, out, obs);
      var r := DispatchResult(cfg, dsp, before, out, obs);
      dsp := r.0;
      output.Fill(o, out.(payload := r.1));
      output.Publish(o);
      assert Contents(output.Unread()) == Contents(old(output.Unread())) + [Content(output.slots[o])];
    }

    /** The output ring is full: the block at the front is released unprocessed. */
    method DropFront(i: int)
      requires input != output && input.slots != output.slots
      requires Inv(input.Model()) && input.consumer.Reading? && i == SlotIndex(input.tail, input.slots.Length)
      modifies this`dropped, input`tail, input`consumer, input`taken
      ensures Inv(input.Model()) && input.consumer.ConsumerIdle?
      ensures old(input.Unread()) != [] && input.Unread() == old(input.Unread())[1..]
      ensures dropped == old(dropped) + 1
    {
      input.Release(i);
      dropped := dropped + 1;
    }

    /** The block at the front is processed into slot `o`, then released, counted and signalled. */
    method ForwardFront(i: int, o: int, obs: Observation)
      requires input != output && input.slots != output.slots
      requires Inv(input.Model()) && input.consumer.Reading? && i == SlotIndex(input.tail, input.slots.Length)
      requires Inv(output.Model()) && output.producer.Writing? && o == SlotIndex(output.head, output.slots.Length)
      requires SlotsSized(cfg, output.Model()) && input.Unread() != [] && input.slots[i] == input.Unread()[0]
      requires |input.slots[i].payload| == cfg.capacity && Fits(cfg, Content(input.slots[i]))
      modifies this, output.slots, output`head, output`producer, output`published
      modifies input`tail, input`consumer, input`taken
      ensures Inv(input.Model()) && input.consumer.ConsumerIdle?
      ensures Inv(output.Model()) && SlotsSized(cfg, output.Model()) && output.producer.ProducerIdle?
      ensures input.Unread() == old(input.Unread())[1..]
      ensures var e := Emit(cfg, old(dsp), Content(old(input.Unread())[0]), obs);
        dsp == e.0 && Contents(output.Unread()) == Contents(old(output.Unread())) + [e.1]
      ensures processed == old(processed) + 1 && signals == old(signals) + 1 && dropped == old(dropped)
    {
      Forward(i, o, obs);
      input.Release(i);
      processed := processed + 1;
      signals := signals + 1;
    }

    ghost function State(): Tally<D>
      requires Ready()
      reads this, input, input.slots, output, output.slots
    {
      Tally(dsp, Contents(output.Unread()), processed, dropped)
    }

    /** What happens to the block found at the front. */
    method Dispose(i: int, observe: nat -> Observation)
      requires input != output && input.slots != output.slots
      requires Inv(input.Model()) && input.consumer.Reading? && i == SlotIndex(input.tail, input.slots.Length)
      requires Inv(output.Model()) && output.producer.ProducerIdle?
      requires SlotsSized(cfg, output.Model()) && BlocksFit(cfg, input.Unread())
      requires input.Unread() != [] && input.slots[i] == input.Unread()[0]
      modifies this, output.slots, output`head, output`producer, output`published
      modifies input`tail, input`consumer, input`taken
      ensures Ready() && input.Unread() == old(input.Unread())[1..]
      ensures State() ==
        Iterated(cfg, Tally(old(dsp), Contents(old(output.Unread())), old(processed), old(dropped)),
                 Content(old(input.Unread())[0]), output.slots.Length, observe)
      ensures signals - old(signals) == processed - old(processed)
    {
      BlocksFitTail(cfg, input.Unread());
      ghost var unread := Contents(output.Unread());
      var o := output.Acquire();
      if o < 0 {
        DropFront(i);
        assert State() == Tally(dsp, unread, processed, dropped);
        return;
      }
      ForwardFront(i, o, observe(processed));
    }

    /** The body of the inner loop. Returns false when `Read` finds nothing; otherwise the block at
        the front has been dropped, because the output ring is full, or processed. */
    method Iterate(observe: nat -> Observation) returns (more: bool)
      requires Ready()
      modifies this, output.slots, output`head, output`producer, output`published
      modifies input`tail, input`consumer, input`taken
      ensures Ready()
      ensures more <==> old(input.Unread()) != []
      ensures if more
        then input.Unread() == old(input.Unread())[1..] &&
             State() == Iterated(cfg, old(State()), Content(old(input.Unread())[0]), output.slots.Length, observe)
        else input.Unread() == [] && State() == old(State())
      ensures signals - old(signals) == processed - old(processed)
    {
      var i := input.Read();
      if i < 0 {
        return false;
      }
      Dispose(i, observe);
      return true;
    }

    /** The inner loop: until `Read` finds nothing, each block is processed if the output ring has
        room and dropped if it has not. */
    method Drain(observe: nat -> Observation)
      requires Ready()
      modifies this, output.slots, output`head, output`producer, output`published
      modifies input`tail, input`consumer, input`taken
      ensures Ready() && input.Unread() == []
      ensures State() ==
        Drained(cfg, old(State()), Contents(old(input.Unread())), output.slots.Length, observe)
      ensures signals - old(signals) == processed - old(processed)
    {
      var more := true;
      while more
        invariant Ready() && (!more ==> input.Unread() == [])
        invariant Drained(cfg, State(), Contents(input.Unread()), output.slots.Length, observe) ==
          Drained(cfg, old(State()), Contents(old(input.Unread())), output.slots.Length, observe)
        invariant signals - old(signals) == processed - old(processed)
        decreases more, |input.Unread()|
      {
        ghost var q := input.Unread();
        more := Iterate(observe);
        if more {
          assert Contents(q)[1..] == Contents(q[1..]);
        }
      }
    }

    /** The outer loop over a series of turns, each of which reads the stop flags and then waits. It ends at
        the first turn that finds a stop flag up. A wait that times out does not drain anything. */
    method RunPassthrough(turns: seq<Turn>, observe: nat -> Observation)
      requires Ready()
      modifies this, output.slots, output`head, output`producer, output`published
      modifies input`tail, input`consumer, input`taken
      ensures Ready()
      ensures !Wakes(turns) ==> State() == old(State()) && input.Unread() == old(input.Unread())
      ensures Wakes(turns) ==>
        input.Unread() == [] &&
        State() == Drained(cfg, old(State()), Contents(old(input.Unread())), output.slots.Length, observe)
      ensures signals - old(signals) == processed - old(processed)
    {
      for n := 0 to |turns|
        invariant Ready() && Wakes(turns) == (Wakes(turns[..n]) || Wakes(turns[n..]))
        invariant forall i :: 0 <= i < n ==> !turns[i].stop
        invariant !Wakes(turns[..n]) ==> State() == old(State()) && input.Unread() == old(input.Unread())
        invariant Wakes(turns[..n]) ==>
          input.Unread() == [] &&
          State() == Drained(cfg, old(State()), Contents(old(input.Unread())), output.slots.Length, observe)
        invariant signals - old(signals) == processed - old(processed)
      {
        WakesStep(turns, n);
        if turns[n].stop {
          return;
        }
        if !turns[n].woken {
          continue;
        }
        Drain(observe);
      }
      assert turns[..|turns|] == turns;
    }
  }
}
