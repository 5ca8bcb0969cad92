/** What the data plane promises, for every run of the interleaved machine from fresh rings. */
module StreamTheorems {
  import opened Wrappers
  import opened RingProtocol
  import opened ChainSpec
  import opened DataPlane

  function Contents(q: seq<Memory>): (r: seq<Block>)
    ensures |r| == |q|
  {
    seq(|q|, i requires 0 <= i < |q| => Content(q[i]))
  }

  // ---- The stream ----

  /** The blocks the host has read, followed by those still unread in the output ring, are the
      chain, its state threaded through, applied in order to the blocks that were not dropped;
      every consumed block was either processed or dropped. */
  lemma EndToEnd<D>(cfg: Config<D>, s: System<D>, events: seq<Event>, s': System<D>)
    requires Init(cfg, s) && IsRun(cfg, s, events, s')
    ensures |s'.fates| <= |s'.sent| && s'.output.taken <= |s'.output.published|
    ensures s'.received + Contents(Queue(s'.output)) == Replay(cfg, s.dsp, s'.sent, s'.fates).1
    ensures |s'.fates| == s'.input.taken + (if s'.audio.ReleaseIn? then 1 else 0)
    ensures s'.processed + s'.dropped +
      (if s'.audio.CountDropped? || s'.audio.CountProcessed? then 1 else 0) == s'.input.taken
  {
    EveryRun(cfg, s, events, s');
  }

  /** The indices of the processed blocks. */
  function Kept(fates: seq<Fate>): seq<nat> {
    if fates == [] then []
    else
      var k := |fates| - 1;
      if fates[k].Processed? then Kept(fates[..k]) + [k] else Kept(fates[..k])
  }

  lemma {:induction false} KeptLength<D>(cfg: Config<D>, d: D, sent: seq<Block>, fates: seq<Fate>)
    requires |fates| <= |sent|
    ensures |Replay(cfg, d, sent, fates).1| == |Kept(fates)| == |fates| - DropCount(fates)
  {
    if fates == [] {
    } else {
      KeptLength(cfg, d, sent, fates[..|fates| - 1]);
    }
  }

  /** The emitted blocks belong, one to one and in order, to a subsequence of the blocks sent. Each
      keeps its sequence number, frame count, channel count, sample rate, flags and length; its
      reserved bytes are zero; and its samples are what the chain made of that very block in the
      plugin world that all the earlier processed blocks left behind. */
  lemma {:induction false} ReplayIsSubsequence<D>(
    cfg: Config<D>, d: D, sent: seq<Block>, fates: seq<Fate>, j: nat)
    requires |fates| <= |sent| && j < |Kept(fates)|
    ensures var outs, kept := Replay(cfg, d, sent, fates).1, Kept(fates);
      && |outs| == |kept| && kept[j] < |fates| && (j > 0 ==> kept[j - 1] < kept[j])
      && var k := kept[j];
         && fates[k].Processed?
         && outs[j] == Emit(cfg, Replay(cfg, d, sent, fates[..k]).0, sent[k], fates[k].obs).1
         && outs[j].header == sent[k].header.(reserved := ZEROED)
         && |outs[j].payload| == |sent[k].payload|
  {
    var n := |fates| - 1;
    KeptLength(cfg, d, sent, fates);
    if fates[n].Processed? && j == |Kept(fates)| - 1 {
      if j > 0 {
        ReplayIsSubsequence(cfg, d, sent, fates[..n], j - 1);
      }
    } else {
      ReplayIsSubsequence(cfg, d, sent, fates[..n], j);
      assert fates[..n][..Kept(fates)[j]] == fates[..Kept(fates)[j]];
    }
  }

  /** With the chain off, what comes out is what went in. */
  lemma DisabledChainIsTransparent<D>(cfg: Config<D>, d: D, b: Block, obs: Observation)
    requires !obs.enabled || NoneSucceeded(Attempts(cfg.plug, obs.views, d, b.payload))
    ensures Emit(cfg, d, b, obs).1.payload == b.payload
  {
    if obs.enabled {
      NoSuccessIsIdentity(cfg.plug, obs.views, d, b.payload);
    }
  }

  // ---- The stream, told by the plugins alone ----

  /** A processed block: its place among the blocks sent, and the plugin worlds and samples between the turns
      of the slots, from the world it was processed in to the one it left behind. */
  datatype Hearing<D> = Hearing(index: nat, before: D, trace: seq<(D, Samples)>, after: D)

  /** As it went in, with its forty reserved bytes zeroed. */
  ghost predicate HeaderKept(h: Header, out: Header) {
    out == h.(reserved := out.reserved) && |out.reserved| == 40 && forall r :: r in out.reserved ==> r == 0
  }

  /** A mono block with samples is led through the slots by a trace if the chain is on; any other block comes
      out as it went in. */
  ghost predicate BlockHeard<D>(cfg: Config<D>, b: Block, obs: Observation, h: Hearing<D>, out: Block) {
    && HeaderKept(b.header, out.header)
    && if cfg.hasChain && b.header.channels == 1 && b.payload != [] && obs.enabled
       then Leads(cfg.plug, obs.views, h.trace, h.before, b.payload, h.after, out.payload)
       else out.payload == b.payload && h.after == h.before
  }

  lemma ZeroedKeeps(h: Header)
    ensures HeaderKept(h, h.(reserved := ZEROED))
  {
  }

  lemma EmitHeard<D>(cfg: Config<D>, d: D, b: Block, obs: Observation, index: nat) returns (h: Hearing<D>)
    ensures h.index == index && h.before == d && h.after == Emit(cfg, d, b, obs).0
    ensures BlockHeard(cfg, b, obs, h, Emit(cfg, d, b, obs).1)
  {
    ZeroedKeeps(b.header);
    var t := FoldTrace(cfg.plug, obs.views, d, b.payload);
    h := Hearing(index, d, t, Emit(cfg, d, b, obs).0);
  }

  /** The world after the blocks heard so far. */
  function LastWorld<D>(d0: D, hs: seq<Hearing<D>>): D {
    if hs == [] then d0 else hs[|hs| - 1].after
  }

  /** Output block `j` belongs to a processed block, and is heard in the world the one before it left behind. */
  ghost predicate HeardAt<D>(
    cfg: Config<D>, d0: D, sent: seq<Block>, fates: seq<Fate>, hs: seq<Hearing<D>>, outs: seq<Block>, j: nat)
    requires j < |hs| == |outs| && |fates| <= |sent|
  {
    && hs[j].index < |fates| && fates[hs[j].index].Processed?
    && hs[j].before == LastWorld(d0, hs[..j])
    && (j > 0 ==> hs[j - 1].index < hs[j].index)
    && BlockHeard(cfg, sent[hs[j].index], fates[hs[j].index].obs, hs[j], outs[j])
  }

  ghost predicate IsHeard<D>(hs: seq<Hearing<D>>, k: nat) {
    exists j :: 0 <= j < |hs| && hs[j].index == k
  }

  /** The output blocks belong one to one, in order, to the processed blocks. */
  ghost predicate AllHeard<D>(
    cfg: Config<D>, d0: D, sent: seq<Block>, fates: seq<Fate>, hs: seq<Hearing<D>>, outs: seq<Block>)
  {
    && |hs| == |outs| && |fates| <= |sent|
    && (forall j :: 0 <= j < |hs| ==> HeardAt(cfg, d0, sent, fates, hs, outs, j))
    && (forall k :: 0 <= k < |fates| && fates[k].Processed? ==> IsHeard(hs, k))
  }

  lemma HeardStays<D>(cfg: Config<D>, d0: D, sent: seq<Block>, fates: seq<Fate>, f: Fate,
      hs: seq<Hearing<D>>, outs: seq<Block>, h: seq<Hearing<D>>, out: seq<Block>, j: nat)
    requires j < |hs| == |outs| && |fates| < |sent| && |h| == |out|
    requires HeardAt(cfg, d0, sent, fates, hs, outs, j)
    ensures HeardAt(cfg, d0, sent, fates + [f], hs + h, outs + out, j)
  {
    assert (hs + h)[..j] == hs[..j];
  }

  lemma IsHeardStays<D>(hs: seq<Hearing<D>>, h: seq<Hearing<D>>, k: nat)
    requires IsHeard(hs, k)
    ensures IsHeard(hs + h, k)
  {
    var j :| 0 <= j < |hs| && hs[j].index == k;
    assert (hs + h)[j].index == k;
  }

  /** A dropped block is not heard. */
  lemma HeardWithoutDropped<D>(
    cfg: Config<D>, d0: D, sent: seq<Block>, fates: seq<Fate>, f: Fate, hs: seq<Hearing<D>>, outs: seq<Block>)
    requires |fates| < |sent| && AllHeard(cfg, d0, sent, fates, hs, outs) && f.Dropped?
    ensures AllHeard(cfg, d0, sent, fates + [f], hs, outs)
  {
    forall j: nat | j < |hs| ensures HeardAt(cfg, d0, sent, fates + [f], hs, outs, j) {
      HeardStays(cfg, d0, sent, fates, f, hs, outs, [], [], j);
      assert hs + [] == hs && outs + [] == outs;
    }
  }

  /** A processed one is heard last. */
  lemma HeardLast<D>(cfg: Config<D>, d0: D, sent: seq<Block>, fates: seq<Fate>, f: Fate,
      hs: seq<Hearing<D>>, outs: seq<Block>, h: Hearing<D>, out: Block)
    requires |fates| < |sent| && AllHeard(cfg, d0, sent, fates, hs, outs) && f.Processed?
    requires h.index == |fates| && h.before == LastWorld(d0, hs) && BlockHeard(cfg, sent[|fates|], f.obs, h, out)
    ensures AllHeard(cfg, d0, sent, fates + [f], hs + [h], outs + [out])
  {
    forall j: nat | j < |hs + [h]| ensures HeardAt(cfg, d0, sent, fates + [f], hs + [h], outs + [out], j) {
      if j < |hs| {
        HeardStays(cfg, d0, sent, fates, f, hs, outs, [h], [out], j);
      } else {
        assert (hs + [h])[..j] == hs;
        assert j > 0 ==> HeardAt(cfg, d0, sent, fates, hs, outs, j - 1);
      }
    }
    forall k: nat | k < |fates + [f]| && (fates + [f])[k].Processed? ensures IsHeard(hs + [h], k) {
      if k < |fates| {
        IsHeardStays(hs, [h], k);
      } else {
        assert (hs + [h])[|hs|].index == k;
      }
    }
  }

  lemma {:induction false} ReplayHeard<D>(cfg: Config<D>, d0: D, sent: seq<Block>, fates: seq<Fate>)
    returns (hs: seq<Hearing<D>>)
    requires |fates| <= |sent|
    ensures AllHeard(cfg, d0, sent, fates, hs, Replay(cfg, d0, sent, fates).1)
    ensures LastWorld(d0, hs) == Replay(cfg, d0, sent, fates).0
  {
    if fates == [] {
      hs := [];
    } else {
      var k := |fates| - 1;
      var f, before := fates[k], Replay(cfg, d0, sent, fates[..k]);
      hs := ReplayHeard(cfg, d0, sent, fates[..k]);
      assert fates[..k] + [f] == fates;
      if f.Processed? {
        var e := Emit(cfg, before.0, sent[k], f.obs);
        var h := EmitHeard(cfg, before.0, sent[k], f.obs, k);
        HeardLast(cfg, d0, sent, fates[..k], f, hs, before.1, h, e.1);
        hs := hs + [h];
      } else {
        HeardWithoutDropped(cfg, d0, sent, fates[..k], f, hs, before.1);
      }
    }
  }

  /** In every interleaving, the blocks the host has read and those still unread are heard as the plugins make
      them sound: each comes from one processed block, in order, led through the slots by a trace of plugin
      worlds and samples that starts where the trace of the block before it ended. */
  lemma EveryBlockHeard<D>(cfg: Config<D>, s: System<D>, events: seq<Event>, s': System<D>)
    returns (hs: seq<Hearing<D>>)
    requires Init(cfg, s) && IsRun(cfg, s, events, s')
    ensures s'.output.taken <= |s'.output.published|
    ensures AllHeard(cfg, s.dsp, s'.sent, s'.fates, hs, s'.received + Contents(Queue(s'.output)))
    ensures !s'.audio.PublishOut? ==> s'.dsp == LastWorld(s.dsp, hs)
  {
    EndToEnd(cfg, s, events, s');
    EveryRun(cfg, s, events, s');
    hs := ReplayHeard(cfg, s.dsp, s'.sent, s'.fates);
  }

  /** What the chain showed at the dispatches among the events. */
  function Dispatched(events: seq<Event>): seq<Observation> {
    if events == [] then []
    else (if events[0].Dispatch? then [events[0].obs] else []) + Dispatched(events[1..])
  }

  function Observed(fates: seq<Fate>): seq<Observation> {
    if fates == [] then []
    else
      var k := |fates| - 1;
      Observed(fates[..k]) + if fates[k].Processed? then [fates[k].obs] else []
  }

  /** Those of the processed blocks, and that of the block on its way to publication. */
  function ObservedSoFar<D>(s: System<D>): seq<Observation> {
    Observed(s.fates) + if s.audio.PublishOut? then [s.audio.obs] else []
  }

  lemma StepObserves<D>(cfg: Config<D>, s: System<D>, e: Event)
    requires Enabled(cfg, s, e)
    ensures ObservedSoFar(Step(cfg, s, e)) == ObservedSoFar(s) + if e.Dispatch? then [e.obs] else []
  {
    var s' := Step(cfg, s, e);
    if s'.fates != s.fates {
      assert s'.fates[..|s.fates|] == s.fates;
    }
  }

  /** The observations behind the fates are those the dispatches made, in order. */
  lemma {:induction false} ObservationsDispatched<D>(
    cfg: Config<D>, s: System<D>, events: seq<Event>, s': System<D>)
    requires IsRun(cfg, s, events, s')
    ensures ObservedSoFar(s') == ObservedSoFar(s) + Dispatched(events)
    decreases |events|
  {
    if events == [] {
    } else {
      var next := Step(cfg, s, events[0]);
      StepObserves(cfg, s, events[0]);
      ObservationsDispatched(cfg, next, events[1..], s');
      Reassociate(ObservedSoFar(s), if events[0].Dispatch? then [events[0].obs] else [], Dispatched(events[1..]));
    }
  }

  /** The blocks the host set out to send. */
  function Started(events: seq<Event>): seq<Block> {
    if events == [] then []
    else
      var k := |events| - 1;
      Started(events[..k]) + if events[k].WriterStart? then [events[k].block] else []
  }

  /** The block the host is about to send. */
  function InHand(w: Writer): seq<Block> {
    match w
    case WriterIdle => []
    case WriterPost => []
    case WriterAcquiring(b) => [b]
    case WriterHeader(b) => [b]
    case WriterPayload(b) => [b]
    case WriterPublish(b) => [b]
  }

  /** One step on, the blocks sent and in hand are those before it, plus the one just begun, or without the
      one refused by a full ring. */
  lemma StepSends<D>(cfg: Config<D>, s: System<D>, e: Event)
    requires Enabled(cfg, s, e)
    ensures var mine, mine' := s.sent + InHand(s.writer), Step(cfg, s, e).sent + InHand(Step(cfg, s, e).writer);
      if e.WriterStart? then mine' == mine + [e.block]
      else if e.WriterStep? && s.writer.WriterAcquiring? && SeesFull(s.input) then mine' == s.sent
      else mine' == mine
  {
  }

  lemma {:induction false} RunSnoc<D>(cfg: Config<D>, s: System<D>, events: seq<Event>, s': System<D>)
    returns (last: System<D>)
    requires IsRun(cfg, s, events, s') && events != []
    ensures IsRun(cfg, s, events[..|events| - 1], last)
    ensures Enabled(cfg, last, events[|events| - 1]) && s' == Step(cfg, last, events[|events| - 1])
    decreases |events|
  {
    var k := |events| - 1;
    if k == 0 {
      last := s;
    } else {
      last := RunSnoc(cfg, Step(cfg, s, events[0]), events[1..], s');
      assert events[1..][..k - 1] == events[..k][1..];
    }
  }

  /** What one step changes: a block begun, one refused, or nothing. */
  lemma OneMoreStarted(at: seq<nat>, started: seq<Block>, sent: seq<Block>, inHand: seq<Block>, e: Event,
      mine: seq<Block>) returns (at': seq<nat>)
    requires Ascending(at, |started|) && Picks(at, started, sent + inHand)
    requires if e.WriterStart? then mine == sent + inHand + [e.block]
      else mine == sent + inHand || (|inHand| == 1 && mine == sent)
    ensures var started' := started + if e.WriterStart? then [e.block] else [];
      Ascending(at', |started'|) && Picks(at', started', mine)
  {
    if e.WriterStart? {
      PicksOneMore(at, started, sent + inHand, e.block);
      at' := at + [|started|];
    } else if mine == sent + inHand {
      at' := at;
    } else {
      at' := at[..|sent|];
    }
  }

  /** What is sent is what the host set out to send, in order, but for the blocks a full ring refused. */
  lemma {:induction false} SentWereStarted<D>(cfg: Config<D>, s: System<D>, events: seq<Event>, s': System<D>)
    returns (at: seq<nat>)
    requires Init(cfg, s) && IsRun(cfg, s, events, s')
    ensures Ascending(at, |Started(events)|) && Picks(at, Started(events), s'.sent + InHand(s'.writer))
    decreases |events|
  {
    if events == [] {
      at := [];
    } else {
      var k := |events| - 1;
      var e := events[k];
      var last := RunSnoc(cfg, s, events, s');
      at := SentWereStarted(cfg, s, events[..k], last);
      StepSends(cfg, last, e);
      at := OneMoreStarted(at, Started(events[..k]), last.sent, InHand(last.writer), e,
        s'.sent + InHand(s'.writer));
    }
  }

  // ---- Memory safety of the two rings, composed ----

  lemma {:induction false} RunKeepsDepths<D>(cfg: Config<D>, s: System<D>, events: seq<Event>, s': System<D>)
    requires IsRun(cfg, s, events, s')
    ensures |s'.input.slots| == |s.input.slots| && |s'.output.slots| == |s.output.slots|
    decreases |events|
  {
    if events == [] {
    } else {
      RunKeepsDepths(cfg, Step(cfg, s, events[0]), events[1..], s');
    }
  }

  /** No agent ever fills a slot that the other side of the ring may read, and the audio thread
      never leaves the bounds of a slot. */
  lemma SlotsNeverShared<D>(cfg: Config<D>, s: System<D>, events: seq<Event>, s': System<D>)
    requires Init(cfg, s) && IsRun(cfg, s, events, s')
    ensures |s'.input.slots| == |s.input.slots| && |s'.output.slots| == |s.output.slots|
    ensures |s.input.slots| > 0 && |s.output.slots| > 0
    ensures s'.input.producer.Writing? && s'.input.consumer.Reading? ==>
      SlotIndex(s'.input.head, |s'.input.slots|) != SlotIndex(s'.input.tail, |s'.input.slots|)
    ensures s'.output.producer.Writing? && s'.output.consumer.Reading? ==>
      SlotIndex(s'.output.head, |s'.output.slots|) != SlotIndex(s'.output.tail, |s'.output.slots|)
    ensures s'.audio.RunChain? ==> CanDispatch(cfg, Front(s'.input), Held(s'.output))
  {
    EveryRun(cfg, s, events, s');
    RunKeepsDepths(cfg, s, events, s');
    if s'.input.producer.Writing? && s'.input.consumer.Reading? {
      WriterOwnsItsSlot(s'.input, s'.input.taken);
    }
    if s'.output.producer.Writing? && s'.output.consumer.Reading? {
      WriterOwnsItsSlot(s'.output, s'.output.taken);
    }
    if s'.audio.RunChain? {
      DispatchInBounds(cfg, s.dsp, s');
    }
  }

  // ---- Wakeups ----

  /** No lost wakeup: with the audio thread at the outer wait and the semaphore at zero, at most one
      block is unread, and then the host is between publishing and posting it. In particular an idle
      host has no unread block stranded behind a wait that can only time out. */
  lemma NoLostWakeup<D>(cfg: Config<D>, s: System<D>, events: seq<Event>, s': System<D>)
    requires Init(cfg, s) && IsRun(cfg, s, events, s')
    requires s'.audio.Waiting? && s'.semaphore == 0
    ensures s'.input.taken <= |s'.sent| <= s'.input.taken + 1
    ensures |s'.sent| == s'.input.taken + 1 ==> s'.writer.WriterPost?
  {
    EveryRun(cfg, s, events, s');
  }

  /** The host is woken exactly once per processed block. */
  lemma OutputPostsMatchProcessed<D>(cfg: Config<D>, s: System<D>, events: seq<Event>, s': System<D>)
    requires Init(cfg, s) && IsRun(cfg, s, events, s')
    requires s'.audio.Waiting? || s'.audio.ReadLoad?
    ensures s'.outputPosts == s'.processed == |s'.output.published|
  {
    EveryRun(cfg, s, events, s');
    KeptLength(cfg, s.dsp, s'.sent, s'.fates);
  }

  // ---- Drops and latency ----

  /** A block is dropped only if the output ring held exactly its slot count of unread blocks when
      `Acquire` loaded `tail`. */
  lemma DropsOnlyWhenFull<D>(cfg: Config<D>, s: System<D>, events: seq<Event>, s': System<D>, i: nat)
    requires Init(cfg, s) && IsRun(cfg, s, events, s')
    requires i < |s'.fates| && s'.fates[i].Dropped?
    ensures s'.fates[i].unread == |s.output.slots|
  {
    EveryRun(cfg, s, events, s');
    RunKeepsDepths(cfg, s, events, s');
  }

  /** Blocks on their way never exceed the depths of the two rings together. */
  lemma LatencyBounded<D>(cfg: Config<D>, s: System<D>, events: seq<Event>, s': System<D>)
    requires Init(cfg, s) && IsRun(cfg, s, events, s')
    ensures 0 <= |s'.sent| - |s'.received| - DropCount(s'.fates) <= |s.input.slots| + |s.output.slots|
  {
    EveryRun(cfg, s, events, s');
    RunKeepsDepths(cfg, s, events, s');
    KeptLength(cfg, s.dsp, s'.sent, s'.fates);
  }

  // ---- The audio thread is never stuck, and its drain loop ends once the host stops publishing ----

  ghost predicate InDrainLoop<D>(s: System<D>) {
    !s.audio.Waiting? && !s.audio.Stopped?
  }

  predicate IsAudioEvent(e: Event) {
    e.AudioStep? || e.Dispatch?
  }

  /** Whatever the other agents do, the audio thread's next step is available. */
  lemma AudioIsWaitFree<D>(cfg: Config<D>, d0: D, s: System<D>, obs: Observation)
    requires SystemInv(cfg, d0, s) && InDrainLoop(s)
    ensures Enabled(cfg, s, if s.audio.RunChain? then Dispatch(obs) else AudioStep)
  {
    if s.audio.RunChain? {
      DispatchInBounds(cfg, d0, s);
    }
  }

  /** An upper bound on the audio thread's remaining steps in the drain loop if nothing more is
      published: ten for each unread block, and the final look at `head`. */
  function Remaining<D>(s: System<D>): int {
    var unread := |s.input.published| - s.input.taken;
    10 * unread + match s.audio
      case Waiting => 0
      case Stopped => 0
      case ReadLoad => 2
      case ReadTest => 1
      case AcquireLoad => 0
      case AcquireTest => -1
      case DropRelease(_) => -2
      case CountDropped => 3
      case CopyHeader => -2
      case RunChain => -3
      case PublishOut(_) => -4
      case ReleaseIn => -5
      case CountProcessed => 4
      case SignalOut => 3
  }

  /** Throughout the run the audio thread is inside the drain loop. */
  ghost predicate StaysInLoop<D>(cfg: Config<D>, s: System<D>, events: seq<Event>, s': System<D>)
    requires IsRun(cfg, s, events, s')
    decreases |events|
  {
    InDrainLoop(s) && (events != [] ==> StaysInLoop(cfg, Step(cfg, s, events[0]), events[1..], s'))
  }

  function CountAudio(events: seq<Event>): nat {
    if events == [] then 0 else (if IsAudioEvent(events[0]) then 1 else 0) + CountAudio(events[1..])
  }

  function Publications<D>(s: System<D>, s': System<D>): int {
    |s'.input.published| - |s.input.published|
  }

  lemma AudioStepUsesUpOne<D>(cfg: Config<D>, s: System<D>)
    requires Enabled(cfg, s, AudioStep)
    ensures InDrainLoop(StepAudio(s)) ==> Remaining(StepAudio(s)) <= Remaining(s) - 1
  {
    match s.audio
    case ReadLoad =>
    case ReadTest =>
    case AcquireLoad =>
    case AcquireTest =>
    case DropRelease(_) =>
    case CountDropped =>
    case CopyHeader =>
    case PublishOut(_) =>
    case ReleaseIn =>
    case CountProcessed =>
    case SignalOut =>
  }

  /** A publication adds ten steps, no other step of another agent adds any, and each of the audio
      thread's own takes one away. */
  lemma StepUsesUpRemaining<D>(cfg: Config<D>, s: System<D>, e: Event)
    requires InDrainLoop(s) && Enabled(cfg, s, e)
    ensures var t := Step(cfg, s, e);
      && 0 <= Publications(s, t) <= 1
      && (InDrainLoop(t) ==>
            Remaining(t) <= Remaining(s) + 10 * Publications(s, t) - (if IsAudioEvent(e) then 1 else 0))
  {
    if e.AudioStep? {
      AudioStepUsesUpOne(cfg, s);
    }
  }

  lemma RemainingPositive<D>(cfg: Config<D>, d0: D, s: System<D>)
    requires SystemInv(cfg, d0, s) && InDrainLoop(s)
    ensures 0 < Remaining(s) <= 10 * |Queue(s.input)| + 4
  {
  }

  /** The budget of the drain loop: as long as the audio thread stays in it, its steps are paid for
      by the blocks unread at the start and by those published meanwhile, ten each. */
  lemma {:induction false} DrainBudget<D>(cfg: Config<D>, d0: D, s: System<D>, events: seq<Event>, s': System<D>)
    requires SystemInv(cfg, d0, s) && IsRun(cfg, s, events, s') && StaysInLoop(cfg, s, events, s')
    ensures SystemInv(cfg, d0, s') && 0 < Remaining(s') && 0 <= Publications(s, s')
    ensures CountAudio(events) + Remaining(s') <= Remaining(s) + 10 * Publications(s, s')
    decreases |events|
  {
    RemainingPositive(cfg, d0, s);
    if events == [] {
    } else {
      StepUsesUpRemaining(cfg, s, events[0]);
      StepKeeps(cfg, d0, s, events[0]);
      DrainBudget(cfg, d0, Step(cfg, s, events[0]), events[1..], s');
    }
  }

  /** Every block consumed in the loop was unread at its start or has been published since. So once the
      host stops publishing, the audio thread goes around at most once per unread block, at most
      `slotCount` times, and takes at most ten steps for each, and three, before it is back at the wait. */
  lemma DrainEnds<D>(cfg: Config<D>, d0: D, s: System<D>, events: seq<Event>, s': System<D>)
    requires SystemInv(cfg, d0, s) && IsRun(cfg, s, events, s') && StaysInLoop(cfg, s, events, s')
    ensures CountAudio(events) < 10 * (|Queue(s.input)| + Publications(s, s')) + 4
    ensures s'.input.taken - s.input.taken <= |Queue(s.input)| + Publications(s, s')
    ensures Publications(s, s') == 0 ==>
      CountAudio(events) < 10 * |Queue(s.input)| + 4 &&
      s'.input.taken - s.input.taken <= |Queue(s.input)| <= |s.input.slots|
  {
    DrainBudget(cfg, d0, s, events, s');
    RemainingPositive(cfg, d0, s);
  }

  // ---- While the host keeps publishing, nothing bounds the drain loop ----

  /** A run; with `stay`, one in which the audio thread is inside the drain loop throughout. */
  ghost predicate IsPath<D>(cfg: Config<D>, stay: bool, s: System<D>, events: seq<Event>, s': System<D>) {
    IsRun(cfg, s, events, s') && (stay ==> StaysInLoop(cfg, s, events, s'))
  }

  /** Between rounds: the host is idle, the input ring is drained, the audio thread is about to look
      at `head` once more. */
  ghost predicate BetweenRounds<D>(cfg: Config<D>, d0: D, s: System<D>) {
    SystemInv(cfg, d0, s) && s.writer.WriterIdle? && s.audio.ReadLoad? && Queue(s.input) == []
  }

  lemma {:induction false} PathsCompose<D>(
    cfg: Config<D>, stay: bool, a: System<D>, first: seq<Event>, b: System<D>, second: seq<Event>, c: System<D>)
    requires IsPath(cfg, stay, a, first, b) && IsPath(cfg, stay, b, second, c)
    ensures IsPath(cfg, stay, a, first + second, c)
    decreases |first|
  {
    if first == [] {
      assert first + second == second;
    } else {
      PathsCompose(cfg, stay, Step(cfg, a, first[0]), first[1..], b, second, c);
      assert (first + second)[1..] == first[1..] + second;
    }
  }

  lemma OneStep<D>(cfg: Config<D>, stay: bool, d0: D, s: System<D>, e: Event) returns (s': System<D>)
    requires SystemInv(cfg, d0, s) && Enabled(cfg, s, e)
    requires e.WriterStart? ==> Fits(cfg, e.block)
    requires stay ==> InDrainLoop(s) && InDrainLoop(Step(cfg, s, e))
    ensures s' == Step(cfg, s, e) && SystemInv(cfg, d0, s') && IsPath(cfg, stay, s, [e], s')
  {
    s' := Step(cfg, s, e);
    StepKeeps(cfg, d0, s, e);
    assert [e][1..] == [];
    assert IsRun(cfg, s', [], s');
    if stay { assert StaysInLoop(cfg, s', [], s'); }
  }

  function WriterRank(w: Writer): nat {
    match w
    case WriterAcquiring(_) => 5
    case WriterHeader(_) => 4
    case WriterPayload(_) => 3
    case WriterPublish(_) => 2
    case WriterPost => 1
    case WriterIdle => 0
  }

  /** One step of the host through sending a block, when the ring is not seen full. */
  lemma HostStep<D>(cfg: Config<D>, s: System<D>)
    requires Enabled(cfg, s, WriterStep) && (s.writer.WriterAcquiring? ==> !SeesFull(s.input))
    ensures var s' := Step(cfg, s, WriterStep);
      && s'.audio == s.audio && s'.input.taken == s.input.taken
      && WriterRank(s'.writer) + 1 == WriterRank(s.writer)
      && s'.semaphore == s.semaphore + (if s.writer.WriterPost? then 1 else 0)
      && |s'.input.published| == |s.input.published| + (if s.writer.WriterPublish? then 1 else 0)
  {
  }

  /** The host, having found the ring empty, finishes sending a block. */
  lemma {:induction false} HostFinishes<D>(cfg: Config<D>, stay: bool, d0: D, s: System<D>)
    returns (events: seq<Event>, s': System<D>)
    requires SystemInv(cfg, d0, s) && (stay ==> InDrainLoop(s)) && !s.writer.WriterIdle?
    requires s.writer.WriterAcquiring? ==> s.input.producer.takenSeen == |s.input.published|
    ensures IsPath(cfg, stay, s, events, s') && SystemInv(cfg, d0, s')
    ensures s'.writer.WriterIdle? && s'.audio == s.audio && s'.semaphore == s.semaphore + 1
    ensures s'.input.taken == s.input.taken
    ensures |s'.input.published| == |s.input.published| + if s.writer.WriterPost? then 0 else 1
    decreases WriterRank(s.writer)
  {
    if s.writer.WriterAcquiring? {
      FullTestExact(s.input);
    }
    HostStep(cfg, s);
    var next := OneStep(cfg, stay, d0, s, WriterStep);
    if s.writer.WriterPost? {
      events, s' := [WriterStep], next;
    } else {
      var rest;
      rest, s' := HostFinishes(cfg, stay, d0, next);
      events := [WriterStep] + rest;
      PathsCompose(cfg, stay, s, [WriterStep], next, rest, s');
    }
  }

  /** The host sends one block while the audio thread stands still. */
  lemma HostSends<D>(cfg: Config<D>, stay: bool, d0: D, s: System<D>, b: Block)
    returns (events: seq<Event>, s': System<D>)
    requires SystemInv(cfg, d0, s) && s.writer.WriterIdle? && Queue(s.input) == [] && Fits(cfg, b)
    requires stay ==> InDrainLoop(s)
    ensures IsPath(cfg, stay, s, events, s') && SystemInv(cfg, d0, s')
    ensures s'.writer.WriterIdle? && s'.audio == s.audio && s'.semaphore == s.semaphore + 1
    ensures s'.input.taken == s.input.taken && |s'.input.published| == s.input.taken + 1
  {
    var next := OneStep(cfg, stay, d0, s, WriterStart(b));
    var rest;
    rest, s' := HostFinishes(cfg, stay, d0, next);
    events := [WriterStart(b)] + rest;
    PathsCompose(cfg, stay, s, [WriterStart(b)], next, rest, s');
  }

  /** The audio thread, left alone with an unread block, disposes of it without leaving the loop. */
  lemma {:induction false} AudioConsumes<D>(cfg: Config<D>, d0: D, s: System<D>, obs: Observation)
    returns (events: seq<Event>, s': System<D>)
    requires SystemInv(cfg, d0, s) && s.writer.WriterIdle? && InDrainLoop(s)
    requires !s.audio.CountDropped? && !s.audio.CountProcessed? && !s.audio.SignalOut?
    requires |s.input.published| == s.input.taken + 1
    requires s.audio.ReadTest? ==> s.input.consumer.publishedSeen == |s.input.published|
    ensures IsPath(cfg, true, s, events, s') && SystemInv(cfg, d0, s') && s'.writer.WriterIdle?
    ensures s'.input == Release(s.input.(consumer := Reading))
    ensures s'.audio.CountDropped? || s'.audio.CountProcessed?
    decreases Remaining(s)
  {
    var e := if s.audio.RunChain? then Dispatch(obs) else AudioStep;
    AudioIsWaitFree(cfg, d0, s, obs);
    if s.audio.ReadTest? {
      EmptyTestExact(s.input);
    }
    RemainingPositive(cfg, d0, s);
    StepUsesUpRemaining(cfg, s, e);
    var next := OneStep(cfg, true, d0, s, e);
    if s.audio.DropRelease? || s.audio.ReleaseIn? {
      events, s' := [e], next;
    } else {
      var rest;
      rest, s' := AudioConsumes(cfg, d0, next, obs);
      events := [e] + rest;
      PathsCompose(cfg, true, s, [e], next, rest, s');
    }
  }

  lemma AudioFinishes<D>(cfg: Config<D>, d0: D, s: System<D>) returns (events: seq<Event>, s': System<D>)
    requires SystemInv(cfg, d0, s) && s.writer.WriterIdle? && Queue(s.input) == []
    requires s.audio.CountDropped? || s.audio.CountProcessed?
    ensures IsPath(cfg, true, s, events, s') && BetweenRounds(cfg, d0, s') && s'.input == s.input
  {
    var s1 := OneStep(cfg, true, d0, s, AudioStep);
    events, s' := [AudioStep], s1;
    if s.audio.CountProcessed? {
      s' := OneStep(cfg, true, d0, s1, AudioStep);
      events := [AudioStep] + [AudioStep];
      PathsCompose(cfg, true, s, [AudioStep], s1, [AudioStep], s');
    }
  }

  lemma OneRound<D>(cfg: Config<D>, d0: D, s: System<D>, b: Block, obs: Observation)
    returns (events: seq<Event>, s': System<D>)
    requires BetweenRounds(cfg, d0, s) && Fits(cfg, b)
    ensures IsPath(cfg, true, s, events, s') && BetweenRounds(cfg, d0, s')
    ensures s'.input.taken == s.input.taken + 1
  {
    var e1, s1 := HostSends(cfg, true, d0, s, b);
    var e2, s2 := AudioConsumes(cfg, d0, s1, obs);
    var e3, s3 := AudioFinishes(cfg, d0, s2);
    PathsCompose(cfg, true, s, e1, s1, e2, s2);
    PathsCompose(cfg, true, s, e1 + e2, s2, e3, s3);
    events, s' := e1 + e2 + e3, s3;
  }

  /** The drain loop is not bounded by the slot count, nor by anything else: a host that publishes one
      block per iteration keeps the audio thread in it for any number of iterations. */
  lemma {:induction false} DrainUnboundedUnderPublishing<D>(
    cfg: Config<D>, d0: D, s: System<D>, b: Block, obs: Observation, n: nat)
    returns (events: seq<Event>, s': System<D>)
    requires BetweenRounds(cfg, d0, s) && Fits(cfg, b)
    ensures IsPath(cfg, true, s, events, s') && BetweenRounds(cfg, d0, s')
    ensures s'.input.taken == s.input.taken + n
  {
    if n == 0 {
      events, s' := [], s;
    } else {
      var e1, s1 := DrainUnboundedUnderPublishing(cfg, d0, s, b, obs, n - 1);
      var e2, s2 := OneRound(cfg, d0, s1, b, obs);
      PathsCompose(cfg, true, s, e1, s1, e2, s2);
      events, s' := e1 + e2, s2;
    }
  }

  /** Such a state is reached from the fresh rings: the host sends a block, the audio thread wakes up
      and disposes of it. */
  lemma FirstRound<D>(cfg: Config<D>, s: System<D>, b: Block, obs: Observation)
    returns (events: seq<Event>, s': System<D>)
    requires Init(cfg, s) && Fits(cfg, b)
    ensures IsRun(cfg, s, events, s') && BetweenRounds(cfg, s.dsp, s')
  {
    EveryRun(cfg, s, [], s);
    var d0 := s.dsp;
    var e1, s1 := HostSends(cfg, false, d0, s, b);
    var s2 := OneStep(cfg, false, d0, s1, Wake);
    PathsCompose(cfg, false, s, e1, s1, [Wake], s2);
    var e3, s3 := AudioConsumes(cfg, d0, s2, obs);
    var e4, s4 := AudioFinishes(cfg, d0, s3);
    PathsCompose(cfg, true, s2, e3, s3, e4, s4);
    PathsCompose(cfg, false, s, e1 + [Wake], s2, e3 + e4, s4);
    events, s' := e1 + [Wake] + (e3 + e4), s4;
  }

  // ---- The other agents are not stuck either ----

  /** A reader that is not idle, and has not seen an empty ring. */
  ghost predicate MidRead<D>(s: System<D>) {
    !s.reader.ReaderIdle? && (s.reader.ReaderTest? ==>
      s.output.consumer.Peeking? && s.output.consumer.publishedSeen > s.output.taken)
  }

  function ReaderRank(r: Reader): nat {
    match r
    case ReaderTest => 4
    case ReaderHeader => 3
    case ReaderPayload(_) => 2
    case ReaderRelease(_) => 1
    case ReaderIdle => 0
  }

  /** One step of the reader towards the end of a read. */
  lemma ReaderMoves<D>(cfg: Config<D>, d0: D, s: System<D>)
    requires SystemInv(cfg, d0, s) && MidRead(s)
    ensures Enabled(cfg, s, ReaderStep)
    ensures var t := Step(cfg, s, ReaderStep);
      && ReaderRank(t.reader) + 1 == ReaderRank(s.reader) && t.output.published == s.output.published
      && (!s.reader.ReaderRelease? ==> MidRead(t) && t.received == s.received && t.output.taken == s.output.taken)
      && (s.reader.ReaderRelease? ==>
            && s.output.taken < |s.output.published| && t.output.taken == s.output.taken + 1
            && t.received == s.received + [Content(s.output.published[s.output.taken])])
  {
    if s.reader.ReaderTest? {
      EmptyTestExact(s.output);
    } else {
      FrontIsOldest(s.output);
    }
  }

  lemma {:induction false} ReaderFinishes<D>(cfg: Config<D>, d0: D, s: System<D>)
    returns (events: seq<Event>, s': System<D>)
    requires SystemInv(cfg, d0, s) && MidRead(s)
    ensures IsRun(cfg, s, events, s') && SystemInv(cfg, d0, s') && s'.reader.ReaderIdle?
    ensures s.output.taken < |s.output.published|
    ensures s'.received == s.received + [Content(s.output.published[s.output.taken])]
    decreases ReaderRank(s.reader)
  {
    ReaderMoves(cfg, d0, s);
    var next := OneStep(cfg, false, d0, s, ReaderStep);
    if next.reader.ReaderIdle? {
      events, s' := [ReaderStep], next;
    } else {
      var rest;
      rest, s' := ReaderFinishes(cfg, d0, next);
      events := [ReaderStep] + rest;
      assert events[1..] == rest;
    }
  }

  /** A host that reads while a block is unread gets it: the oldest one, and by its own steps alone. */
  lemma ReaderReads<D>(cfg: Config<D>, s: System<D>, events: seq<Event>, s': System<D>)
    returns (more: seq<Event>, t: System<D>)
    requires Init(cfg, s) && IsRun(cfg, s, events, s')
    requires s'.reader.ReaderIdle? && s'.output.taken < |s'.output.published|
    ensures IsRun(cfg, s', more, t) && t.reader.ReaderIdle?
    ensures t.received == s'.received + [Content(s'.output.published[s'.output.taken])]
  {
    EveryRun(cfg, s, events, s');
    var next := OneStep(cfg, false, s.dsp, s', ReaderStep);
    var rest;
    rest, t := ReaderFinishes(cfg, s.dsp, next);
    more := [ReaderStep] + rest;
    assert more[1..] == rest;
  }

  /** At the outer wait the audio thread can time out and stop, and wakes if and only if something was posted. */
  lemma WaitingChoices<D>(cfg: Config<D>, s: System<D>)
    requires |s.input.slots| > 0 && |s.output.slots| > 0 && s.audio.Waiting?
    ensures Enabled(cfg, s, Timeout) && Step(cfg, s, Timeout) == s
    ensures Enabled(cfg, s, Stop) && Step(cfg, s, Stop).audio.Stopped?
    ensures Enabled(cfg, s, Wake) <==> s.semaphore > 0
    ensures s.semaphore > 0 ==> Step(cfg, s, Wake).audio.ReadLoad? && Step(cfg, s, Wake).semaphore == s.semaphore - 1
  {
  }
}
