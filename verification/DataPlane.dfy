/** The real-time data plane: host writer, sidecar audio thread and host reader, joined by the two
    shared-memory rings and the input semaphore, in every interleaving of their atomic steps.

    The control thread needs no steps of its own: what it stores can only reach this machine
    through the observation a `Process` call makes, and that observation is arbitrary. */
module DataPlane {
  import opened Wrappers
  import opened RingProtocol
  import opened ChainSpec

  datatype Header = Header(
    seqNo: nat, frames: nat, channels: nat, sampleRate: nat, flags: nat, reserved: seq<nat>)

  /** A block as the host means it: a header and `frames * channels` samples. */
  datatype Block = Block(header: Header, payload: Samples)

  /** The memory of one ring slot. Its payload area has the capacity of the ring's geometry. */
  datatype Memory = Memory(header: Header, payload: Samples)

  /** The forty reserved header bytes as the sidecar writes them. */
  const ZEROED: seq<nat> := [
    0, 0, 0, 0, 0, 0, 0, 0, 0, 0, 0, 0, 0, 0, 0, 0, 0, 0, 0, 0,
    0, 0, 0, 0, 0, 0, 0, 0, 0, 0, 0, 0, 0, 0, 0, 0, 0, 0, 0, 0]

  datatype Config<!D> = Config(capacity: nat, maxBlockSize: nat, hasChain: bool, plug: Plugins<D>)

  function SampleCount(h: Header): nat {
    h.frames * h.channels
  }

  /** The block fits the geometry both rings and the chain were set up for. */
  ghost predicate Fits<D>(cfg: Config<D>, b: Block) {
    && |b.payload| == SampleCount(b.header) <= cfg.capacity
    && b.header.frames < 0x8000_0000
    && (b.header.channels == 1 ==> b.header.frames <= cfg.maxBlockSize)
  }

  /** What a reader of the slot makes of its memory. */
  function Content(m: Memory): Block {
    Block(m.header, m.payload[..if SampleCount(m.header) <= |m.payload| then SampleCount(m.header) else |m.payload|])
  }

  /** What became of a consumed input block: dropped, with the number of unread output blocks at
      the moment `Acquire` loaded `tail`; or processed, with what `Process` observed. */
  datatype Fate = Dropped(unread: int) | Processed(obs: Observation)

  datatype Writer =
    | WriterIdle
    | WriterAcquiring(block: Block)
    | WriterHeader(block: Block)
    | WriterPayload(block: Block)
    | WriterPublish(block: Block)
    | WriterPost

  datatype Audio =
    | Waiting
    | ReadLoad | ReadTest
    | AcquireLoad | AcquireTest
    | DropRelease(unread: int) | CountDropped
    | CopyHeader | RunChain | PublishOut(obs: Observation) | ReleaseIn | CountProcessed | SignalOut
    | Stopped

  datatype Reader =
    | ReaderIdle
    | ReaderTest
    | ReaderHeader
    | ReaderPayload(header: Header)
    | ReaderRelease(block: Block)

  /** Shared memory, the three program counters, the two statistics, and history: the blocks sent,
      the fates of those consumed, the blocks received, posts and successful waits. */
  datatype System<D> = System(
    input: Ring<Memory>, output: Ring<Memory>,
    writer: Writer, audio: Audio, reader: Reader,
    semaphore: nat, dsp: D, processed: nat, dropped: nat,
    sent: seq<Block>, fates: seq<Fate>, received: seq<Block>,
    posts: nat, waits: nat, outputPosts: nat)

  datatype Event =
    | WriterStart(block: Block)
    | WriterStep
    | Wake | Timeout | Stop
    | AudioStep
    | Dispatch(obs: Observation)
    | ReaderStep

  // ---- Plugin dispatch ----

  /** The memory accesses of the dispatch stay inside the two slots. */
  predicate CanDispatch<D>(cfg: Config<D>, input: Memory, output: Memory) {
    && input.header.frames < 0x1_0000_0000
    && if cfg.hasChain && input.header.channels == 1 then
         Min(ToInt32(input.header.frames), cfg.maxBlockSize) <= |input.payload| &&
         Min(ToInt32(input.header.frames), cfg.maxBlockSize) <= |output.payload|
       else
         SampleCount(input.header) <= |input.payload| && SampleCount(input.header) <= |output.payload|
  }

  /** Runs the chain on a mono block and copies any other block. */
  function DispatchResult<D>(cfg: Config<D>, d: D, input: Memory, output: Memory, obs: Observation): (D, Samples)
    requires CanDispatch(cfg, input, output)
  {
    if cfg.hasChain && input.header.channels == 1 then
      ProcessResult(cfg.plug, cfg.maxBlockSize, obs, d, input.payload, output.payload, ToInt32(input.header.frames))
    else
      (d, input.payload[..SampleCount(input.header)] + output.payload[SampleCount(input.header)..])
  }

  // ---- The machine ----

  predicate Enabled<D>(cfg: Config<D>, s: System<D>, e: Event) {
    && |s.input.slots| > 0 && |s.output.slots| > 0
    && match e
       case WriterStart(b) => s.writer.WriterIdle? && s.input.producer.ProducerIdle?
       case WriterStep =>
         (match s.writer
          case WriterIdle => false
          case WriterAcquiring(_) => s.input.producer.Acquiring?
          case WriterPost => true
          case _ => s.input.producer.Writing?)
       case Wake => s.audio.Waiting? && s.semaphore > 0
       case Timeout => s.audio.Waiting?
       case Stop => s.audio.Waiting?
       case Dispatch(obs) =>
         && s.audio.RunChain? && s.output.producer.Writing?
         && CanDispatch(cfg, Front(s.input), Held(s.output))
       case AudioStep =>
         (match s.audio
          case Waiting => false
          case Stopped => false
          case RunChain => false
          case ReadLoad => s.input.consumer.ConsumerIdle?
          case ReadTest => s.input.consumer.Peeking?
          case AcquireLoad => s.output.producer.ProducerIdle?
          case AcquireTest => s.output.producer.Acquiring?
          case DropRelease(_) => s.input.consumer.Reading?
          case CopyHeader => s.output.producer.Writing?
          case PublishOut(_) => s.output.producer.Writing?
          case ReleaseIn => s.input.consumer.Reading?
          case _ => true)
       case ReaderStep =>
         (match s.reader
          case ReaderIdle => s.output.consumer.ConsumerIdle?
          case ReaderTest => s.output.consumer.Peeking?
          case _ => s.output.consumer.Reading?)
  }

  function StepWriter<D>(s: System<D>): System<D>
    requires |s.input.slots| > 0 && !s.writer.WriterIdle?
    requires s.writer.WriterAcquiring? ==> s.input.producer.Acquiring?
    requires !s.writer.WriterAcquiring? && !s.writer.WriterPost? ==> s.input.producer.Writing?
  {
    match s.writer
    case WriterAcquiring(b) =>
      s.(input := TestFull(s.input), writer := if SeesFull(s.input) then WriterIdle else WriterHeader(b))
    case WriterHeader(b) =>
      s.(input := Write(s.input, Held(s.input).(header := b.header)), writer := WriterPayload(b))
    case WriterPayload(b) =>
      var before := Held(s.input).payload;
      var rest := if |b.payload| <= |before| then before[|b.payload|..] else [];
      s.(input := Write(s.input, Held(s.input).(payload := b.payload + rest)),
         writer := WriterPublish(b))
    case WriterPublish(b) =>
      s.(input := Publish(s.input), writer := WriterPost, sent := s.sent + [b])
    case WriterPost => s.(semaphore := s.semaphore + 1, posts := s.posts + 1, writer := WriterIdle)
  }

  function StepAudio<D>(s: System<D>): System<D>
    requires |s.input.slots| > 0 && |s.output.slots| > 0
    requires !s.audio.Waiting? && !s.audio.Stopped? && !s.audio.RunChain?
    requires s.audio.ReadLoad? ==> s.input.consumer.ConsumerIdle?
    requires s.audio.ReadTest? ==> s.input.consumer.Peeking?
    requires s.audio.AcquireLoad? ==> s.output.producer.ProducerIdle?
    requires s.audio.AcquireTest? ==> s.output.producer.Acquiring?
    requires s.audio.DropRelease? || s.audio.ReleaseIn? ==> s.input.consumer.Reading?
    requires s.audio.CopyHeader? || s.audio.PublishOut? ==> s.output.producer.Writing?
  {
    match s.audio
    case ReadLoad => s.(input := LoadHead(s.input), audio := ReadTest)
    case ReadTest =>
      s.(input := TestEmpty(s.input), audio := if SeesEmpty(s.input) then Waiting else AcquireLoad)
    case AcquireLoad => s.(output := LoadTail(s.output), audio := AcquireTest)
    case AcquireTest =>
      s.(output := TestFull(s.output),
         audio := if SeesFull(s.output)
                  then DropRelease(|s.output.published| - s.output.producer.takenSeen)
                  else CopyHeader)
    case DropRelease(unread) =>
      s.(input := Release(s.input), audio := CountDropped, fates := s.fates + [Dropped(unread)])
    case CountDropped => s.(dropped := s.dropped + 1, audio := ReadLoad)
    case CopyHeader =>
      s.(output := Write(s.output, Held(s.output).(header := Front(s.input).header.(reserved := ZEROED))),
         audio := RunChain)
    case PublishOut(obs) =>
      s.(output := Publish(s.output), audio := ReleaseIn, fates := s.fates + [Processed(obs)])
    case ReleaseIn => s.(input := Release(s.input), audio := CountProcessed)
    case CountProcessed => s.(processed := s.processed + 1, audio := SignalOut)
    case SignalOut => s.(outputPosts := s.outputPosts + 1, audio := ReadLoad)
  }

  function StepDispatch<D>(cfg: Config<D>, s: System<D>, obs: Observation): System<D>
    requires |s.input.slots| > 0 && |s.output.slots| > 0 && s.output.producer.Writing?
    requires CanDispatch(cfg, Front(s.input), Held(s.output))
  {
    var r := DispatchResult(cfg, s.dsp, Front(s.input), Held(s.output), obs);
    s.(output := Write(s.output, Held(s.output).(payload := r.1)), dsp := r.0, audio := PublishOut(obs))
  }

  function StepReader<D>(s: System<D>): System<D>
    requires |s.output.slots| > 0
    requires s.reader.ReaderIdle? ==> s.output.consumer.ConsumerIdle?
    requires s.reader.ReaderTest? ==> s.output.consumer.Peeking?
    requires !s.reader.ReaderIdle? && !s.reader.ReaderTest? ==> s.output.consumer.Reading?
  {
    match s.reader
    case ReaderIdle => s.(output := LoadHead(s.output), reader := ReaderTest)
    case ReaderTest =>
      s.(output := TestEmpty(s.output), reader := if SeesEmpty(s.output) then ReaderIdle else ReaderHeader)
    case ReaderHeader => s.(reader := ReaderPayload(Front(s.output).header))
    case ReaderPayload(h) =>
      s.(reader := ReaderRelease(Content(Front(s.output).(header := h))))
    case ReaderRelease(b) =>
      s.(output := Release(s.output), reader := ReaderIdle, received := s.received + [b])
  }

  function Step<D>(cfg: Config<D>, s: System<D>, e: Event): System<D>
    requires Enabled(cfg, s, e)
  {
    match e
    case WriterStart(b) => s.(input := LoadTail(s.input), writer := WriterAcquiring(b))
    case WriterStep => StepWriter(s)
    case Wake => s.(semaphore := s.semaphore - 1, waits := s.waits + 1, audio := ReadLoad)
    case Timeout => s
    case Stop => s.(audio := Stopped)
    case AudioStep => StepAudio(s)
    case Dispatch(obs) => StepDispatch(cfg, s, obs)
    case ReaderStep => StepReader(s)
  }

  ghost predicate SlotsSized<D>(cfg: Config<D>, r: Ring<Memory>) {
    forall i :: 0 <= i < |r.slots| ==> |r.slots[i].payload| == cfg.capacity
  }

  ghost predicate Init<D>(cfg: Config<D>, s: System<D>) {
    && s.input == Empty(s.input.slots) && Inv(s.input)
    && s.output == Empty(s.output.slots) && Inv(s.output)
    && SlotsSized(cfg, s.input) && SlotsSized(cfg, s.output)
    && s.writer.WriterIdle? && s.audio.Waiting? && s.reader.ReaderIdle?
    && s.semaphore == s.processed == s.dropped == s.posts == s.waits == s.outputPosts == 0
    && s.sent == [] && s.fates == [] && s.received == []
  }

  /** The events lead from `s` to `s'`, each enabled in its turn, and the host sends only blocks that
      fit the rings. */
  ghost predicate IsRun<D>(cfg: Config<D>, s: System<D>, events: seq<Event>, s': System<D>)
    decreases |events|
  {
    if events == [] then s' == s
    else
      && Enabled(cfg, s, events[0])
      && (events[0].WriterStart? ==> Fits(cfg, events[0].block))
      && IsRun(cfg, Step(cfg, s, events[0]), events[1..], s')
  }

  // ---- What the sidecar is for, without rings, threads or slots ----

  /** The block that processing turns `b` into, and the plugin world it leaves behind. */
  function Emit<D>(cfg: Config<D>, d: D, b: Block, obs: Observation): (D, Block) {
    var r := if cfg.hasChain && b.header.channels == 1 && b.payload != [] && obs.enabled
             then Fold(cfg.plug, obs.views, d, b.payload)
             else (d, b.payload);
    (r.0, Block(b.header.(reserved := ZEROED), r.1))
  }

  /** The chain, its state threaded through, applied in order to the blocks that were not dropped. */
  function Replay<D>(cfg: Config<D>, d: D, sent: seq<Block>, fates: seq<Fate>): (r: (D, seq<Block>))
    requires |fates| <= |sent|
  {
    if fates == [] then (d, [])
    else
      var k := |fates| - 1;
      var before := Replay(cfg, d, sent, fates[..k]);
      match fates[k]
      case Dropped(_) => before
      case Processed(obs) =>
        var e := Emit(cfg, before.0, sent[k], obs);
        (e.0, before.1 + [e.1])
  }

  function DropCount(fates: seq<Fate>): nat {
    if fates == [] then 0
    else DropCount(fates[..|fates| - 1]) + if fates[|fates| - 1].Dropped? then 1 else 0
  }

  // ---- The invariant ----

  ghost predicate ProgramCounters<D>(s: System<D>) {
    && (match s.writer
        case WriterIdle => s.input.producer.ProducerIdle?
        case WriterPost => s.input.producer.ProducerIdle?
        case WriterAcquiring(_) => s.input.producer.Acquiring?
        case _ => s.input.producer.Writing?)
    && (s.input.consumer.ConsumerIdle? <==>
          s.audio.Waiting? || s.audio.Stopped? || s.audio.ReadLoad? || s.audio.CountDropped? ||
          s.audio.CountProcessed? || s.audio.SignalOut?)
    && (s.input.consumer.Peeking? <==> s.audio.ReadTest?)
    && (s.output.producer.Acquiring? <==> s.audio.AcquireTest?)
    && (s.output.producer.Writing? <==> s.audio.CopyHeader? || s.audio.RunChain? || s.audio.PublishOut?)
    && (match s.reader
        case ReaderIdle => s.output.consumer.ConsumerIdle?
        case ReaderTest => s.output.consumer.Peeking?
        case _ => s.output.consumer.Reading?)
  }

  ghost predicate InputContents<D>(cfg: Config<D>, s: System<D>)
    requires Inv(s.input)
  {
    && |s.sent| == |s.input.published|
    && (forall i :: 0 <= i < |s.sent| ==> Content(s.input.published[i]) == s.sent[i])
    && (forall i :: 0 <= i < |s.sent| ==> Fits(cfg, s.sent[i]))
    && (forall i :: 0 <= i < |s.input.published| ==> |s.input.published[i].payload| == cfg.capacity)
    && (match s.writer
        case WriterIdle => true
        case WriterPost => true
        case WriterAcquiring(b) => Fits(cfg, b)
        case WriterHeader(b) => Fits(cfg, b)
        case WriterPayload(b) => Fits(cfg, b) && Held(s.input).header == b.header
        case WriterPublish(b) => Fits(cfg, b) && Content(Held(s.input)) == b)
  }

  /** Blocks whose fate is decided: those released, and the one between publication and release. */
  ghost predicate Decided<D>(s: System<D>) {
    && |s.fates| == s.input.taken + (if s.audio.ReleaseIn? then 1 else 0)
    && |s.fates| <= |s.sent|
    && s.dropped + (if s.audio.CountDropped? then 1 else 0) == DropCount(s.fates)
    && s.processed + (if s.audio.ReleaseIn? || s.audio.CountProcessed? then 1 else 0)
         == |s.fates| - DropCount(s.fates)
    && s.outputPosts + (if s.audio.SignalOut? then 1 else 0) == s.processed
    && (s.audio.DropRelease? ==> s.audio.unread == |s.output.slots|)
    && (forall i :: 0 <= i < |s.fates| && s.fates[i].Dropped? ==> s.fates[i].unread == |s.output.slots|)
  }

  ghost predicate OutputContents<D>(cfg: Config<D>, d0: D, s: System<D>)
    requires Inv(s.input) && Inv(s.output) && |s.fates| <= |s.sent|
  {
    var r := Replay(cfg, d0, s.sent, s.fates);
    && |r.1| == |s.output.published|
    && (forall i :: 0 <= i < |r.1| ==> Content(s.output.published[i]) == r.1[i])
    && (if s.audio.PublishOut?
        then s.input.taken < |s.sent| &&
             Emit(cfg, r.0, s.sent[s.input.taken], s.audio.obs) == (s.dsp, Content(Held(s.output)))
        else s.dsp == r.0)
    && (s.audio.RunChain? ==>
          Held(s.output).header == Front(s.input).header.(reserved := ZEROED))
  }

  ghost predicate ReaderContents<D>(s: System<D>)
    requires Inv(s.output)
  {
    && |s.received| == s.output.taken
    && (forall i :: 0 <= i < s.output.taken ==> s.received[i] == Content(s.output.published[i]))
    && (match s.reader
        case ReaderPayload(h) => h == Front(s.output).header
        case ReaderRelease(b) => b == Content(Front(s.output))
        case _ => true)
  }

  /** The semaphore holds what was posted and not waited for; and a wait that succeeded has been
      matched by a consumed block whenever the audio thread is back at the outer wait. */
  ghost predicate Wakeups<D>(s: System<D>) {
    && s.posts == s.waits + s.semaphore
    && |s.sent| == s.posts + (if s.writer.WriterPost? then 1 else 0)
    && (s.audio.Waiting? || s.audio.Stopped? ==> s.waits <= s.input.taken)
    && (s.input.consumer.Peeking? ==> s.waits <= s.input.consumer.publishedSeen)
  }

  ghost predicate SystemInv<D>(cfg: Config<D>, d0: D, s: System<D>) {
    && Inv(s.input) && Inv(s.output)
    && SlotsSized(cfg, s.input) && SlotsSized(cfg, s.output)
    && ProgramCounters(s)
    && InputContents(cfg, s)
    && Decided(s)
    && OutputContents(cfg, d0, s)
    && ReaderContents(s)
    && Wakeups(s)
  }

  // ---- Every step keeps the invariant ----

  lemma {:induction false} ReplayIgnoresFuture<D>(cfg: Config<D>, d: D, sent: seq<Block>, b: Block, fates: seq<Fate>)
    requires |fates| <= |sent|
    ensures Replay(cfg, d, sent + [b], fates) == Replay(cfg, d, sent, fates)
  {
    if fates == [] {
    } else {
      ReplayIgnoresFuture(cfg, d, sent, b, fates[..|fates| - 1]);
    }
  }

  lemma ReplayExtends<D>(cfg: Config<D>, d: D, sent: seq<Block>, fates: seq<Fate>, f: Fate)
    requires |fates| < |sent|
    ensures Replay(cfg, d, sent, fates + [f]) ==
      var before := Replay(cfg, d, sent, fates);
      match f
      case Dropped(_) => before
      case Processed(obs) =>
        var e := Emit(cfg, before.0, sent[|fates|], obs);
        (e.0, before.1 + [e.1])
    ensures DropCount(fates + [f]) == DropCount(fates) + if f.Dropped? then 1 else 0
  {
    assert (fates + [f])[..|fates|] == fates;
  }

  lemma WriterStartKeeps<D>(cfg: Config<D>, d0: D, s: System<D>, b: Block)
    requires SystemInv(cfg, d0, s) && Enabled(cfg, s, WriterStart(b)) && Fits(cfg, b)
    ensures SystemInv(cfg, d0, Step(cfg, s, WriterStart(b)))
  {
    LoadsInvisible(s.input);
  }

  lemma WriterAcquireKeeps<D>(cfg: Config<D>, d0: D, s: System<D>)
    requires SystemInv(cfg, d0, s) && Enabled(cfg, s, WriterStep) && s.writer.WriterAcquiring?
    ensures SystemInv(cfg, d0, Step(cfg, s, WriterStep))
  {
    TestsInvisible(s.input);
  }

  lemma WriterHeaderKeeps<D>(cfg: Config<D>, d0: D, s: System<D>)
    requires SystemInv(cfg, d0, s) && Enabled(cfg, s, WriterStep) && s.writer.WriterHeader?
    ensures SystemInv(cfg, d0, Step(cfg, s, WriterStep))
  {
    WriteInvisible(s.input, Held(s.input).(header := s.writer.block.header));
  }

  lemma WriterPayloadKeeps<D>(cfg: Config<D>, d0: D, s: System<D>)
    requires SystemInv(cfg, d0, s) && Enabled(cfg, s, WriterStep) && s.writer.WriterPayload?
    ensures SystemInv(cfg, d0, Step(cfg, s, WriterStep))
  {
    var b, p := s.writer.block.payload, Held(s.input).payload;
    assert |p| == cfg.capacity;
    WriteInvisible(s.input, Held(s.input).(payload := b + p[|b|..]));
    assert (b + p[|b|..])[..|b|] == b;
  }

  lemma WriterPublishKeeps<D>(cfg: Config<D>, d0: D, s: System<D>)
    requires SystemInv(cfg, d0, s) && Enabled(cfg, s, WriterStep) && s.writer.WriterPublish?
    ensures SystemInv(cfg, d0, Step(cfg, s, WriterStep))
  {
    PublishEnqueues(s.input);
    ReplayIgnoresFuture(cfg, d0, s.sent, s.writer.block, s.fates);
  }

  lemma WriterPostKeeps<D>(cfg: Config<D>, d0: D, s: System<D>)
    requires SystemInv(cfg, d0, s) && Enabled(cfg, s, WriterStep) && s.writer.WriterPost?
    ensures SystemInv(cfg, d0, Step(cfg, s, WriterStep))
  {
  }

  lemma OuterLoopKeeps<D>(cfg: Config<D>, d0: D, s: System<D>, e: Event)
    requires SystemInv(cfg, d0, s) && Enabled(cfg, s, e) && (e.Wake? || e.Timeout? || e.Stop?)
    ensures SystemInv(cfg, d0, Step(cfg, s, e))
  {
  }

  lemma AudioReadLoadKeeps<D>(cfg: Config<D>, d0: D, s: System<D>)
    requires SystemInv(cfg, d0, s) && Enabled(cfg, s, AudioStep) && s.audio.ReadLoad?
    ensures SystemInv(cfg, d0, Step(cfg, s, AudioStep))
  {
    LoadsInvisible(s.input);
  }

  /** Leaving the drain loop: everything published when `head` was loaded has been consumed, and
      that includes at least one block per successful wait. */
  lemma AudioReadTestKeeps<D>(cfg: Config<D>, d0: D, s: System<D>)
    requires SystemInv(cfg, d0, s) && Enabled(cfg, s, AudioStep) && s.audio.ReadTest?
    ensures SystemInv(cfg, d0, Step(cfg, s, AudioStep))
  {
    TestsInvisible(s.input);
    EmptyTestExact(s.input);
  }

  lemma AudioAcquireLoadKeeps<D>(cfg: Config<D>, d0: D, s: System<D>)
    requires SystemInv(cfg, d0, s) && Enabled(cfg, s, AudioStep) && s.audio.AcquireLoad?
    ensures SystemInv(cfg, d0, Step(cfg, s, AudioStep))
  {
    LoadsInvisible(s.output);
  }

  lemma AudioAcquireTestKeeps<D>(cfg: Config<D>, d0: D, s: System<D>)
    requires SystemInv(cfg, d0, s) && Enabled(cfg, s, AudioStep) && s.audio.AcquireTest?
    ensures SystemInv(cfg, d0, Step(cfg, s, AudioStep))
  {
    TestsInvisible(s.output);
    FullTestExact(s.output);
  }

  lemma AudioDropKeeps<D>(cfg: Config<D>, d0: D, s: System<D>)
    requires SystemInv(cfg, d0, s) && Enabled(cfg, s, AudioStep) && s.audio.DropRelease?
    ensures SystemInv(cfg, d0, Step(cfg, s, AudioStep))
  {
    ReleaseDequeues(s.input);
    ReplayExtends(cfg, d0, s.sent, s.fates, Dropped(s.audio.unread));
  }

  lemma AudioCopyHeaderKeeps<D>(cfg: Config<D>, d0: D, s: System<D>)
    requires SystemInv(cfg, d0, s) && Enabled(cfg, s, AudioStep) && s.audio.CopyHeader?
    ensures SystemInv(cfg, d0, Step(cfg, s, AudioStep))
  {
    WriteInvisible(s.output, Held(s.output).(header := Front(s.input).header.(reserved := ZEROED)));
  }

  lemma PublishExtendsStream<D>(cfg: Config<D>, d0: D, s: System<D>)
    requires SystemInv(cfg, d0, s) && Enabled(cfg, s, AudioStep) && s.audio.PublishOut?
    ensures var t := StepAudio(s); Inv(t.output) && Decided(t) && OutputContents(cfg, d0, t)
  {
    PublishEnqueues(s.output);
    ReplayExtends(cfg, d0, s.sent, s.fates, Processed(s.audio.obs));
  }

  lemma AudioPublishKeeps<D>(cfg: Config<D>, d0: D, s: System<D>)
    requires SystemInv(cfg, d0, s) && Enabled(cfg, s, AudioStep) && s.audio.PublishOut?
    ensures SystemInv(cfg, d0, Step(cfg, s, AudioStep))
  {
    PublishExtendsStream(cfg, d0, s);
  }

  lemma AudioReleaseKeeps<D>(cfg: Config<D>, d0: D, s: System<D>)
    requires SystemInv(cfg, d0, s) && Enabled(cfg, s, AudioStep) && s.audio.ReleaseIn?
    ensures SystemInv(cfg, d0, Step(cfg, s, AudioStep))
  {
    ReleaseDequeues(s.input);
  }

  lemma AudioCountersKeep<D>(cfg: Config<D>, d0: D, s: System<D>)
    requires SystemInv(cfg, d0, s) && Enabled(cfg, s, AudioStep)
    requires s.audio.CountDropped? || s.audio.CountProcessed? || s.audio.SignalOut?
    ensures SystemInv(cfg, d0, Step(cfg, s, AudioStep))
  {
  }

  /** At the dispatch the input slot holds the next undecided block, which fits; so every memory
      access stays inside the slots. */
  lemma DispatchInBounds<D>(cfg: Config<D>, d0: D, s: System<D>)
    requires SystemInv(cfg, d0, s) && s.audio.RunChain?
    ensures s.input.taken < |s.sent| && Content(Front(s.input)) == s.sent[s.input.taken]
    ensures |Front(s.input).payload| == |Held(s.output).payload| == cfg.capacity
    ensures CanDispatch(cfg, Front(s.input), Held(s.output))
  {
    FrontIsOldest(s.input);
    assert Fits(cfg, s.sent[s.input.taken]);
  }

  /** What the dispatch leaves in the output slot is what the specification emits. */
  lemma DispatchEmits<D>(cfg: Config<D>, d: D, input: Memory, output: Memory, obs: Observation)
    requires |input.payload| == |output.payload| == cfg.capacity && Fits(cfg, Content(input))
    requires CanDispatch(cfg, input, output) && output.header == input.header.(reserved := ZEROED)
    ensures var r := DispatchResult(cfg, d, input, output, obs);
      && |r.1| == cfg.capacity
      && Emit(cfg, d, Content(input), obs) == (r.0, Content(output.(payload := r.1)))
  {
    var n := SampleCount(input.header);
    var r := DispatchResult(cfg, d, input, output, obs);
    var x := input.payload[..n];
    assert Content(input).payload == x;
    assert SampleCount(output.header) == n;
    if cfg.hasChain && input.header.channels == 1 {
      assert n == input.header.frames;
    }
    assert r.1[..n] == Emit(cfg, d, Content(input), obs).1.payload;
  }

  lemma DispatchFillsSlot<D>(cfg: Config<D>, d0: D, s: System<D>, obs: Observation)
    requires SystemInv(cfg, d0, s) && Enabled(cfg, s, Dispatch(obs))
    ensures var t := StepDispatch(cfg, s, obs);
      Inv(t.output) && SlotsSized(cfg, t.output) && OutputContents(cfg, d0, t)
  {
    DispatchInBounds(cfg, d0, s);
    DispatchEmits(cfg, s.dsp, Front(s.input), Held(s.output), obs);
    var r := DispatchResult(cfg, s.dsp, Front(s.input), Held(s.output), obs);
    WriteInvisible(s.output, Held(s.output).(payload := r.1));
  }

  lemma DispatchKeeps<D>(cfg: Config<D>, d0: D, s: System<D>, obs: Observation)
    requires SystemInv(cfg, d0, s) && Enabled(cfg, s, Dispatch(obs))
    ensures SystemInv(cfg, d0, Step(cfg, s, Dispatch(obs)))
  {
    DispatchFillsSlot(cfg, d0, s, obs);
    var r := DispatchResult(cfg, s.dsp, Front(s.input), Held(s.output), obs);
    WriteInvisible(s.output, Held(s.output).(payload := r.1));
  }

  lemma ReaderLoadKeeps<D>(cfg: Config<D>, d0: D, s: System<D>)
    requires SystemInv(cfg, d0, s) && Enabled(cfg, s, ReaderStep) && s.reader.ReaderIdle?
    ensures SystemInv(cfg, d0, Step(cfg, s, ReaderStep))
  {
    LoadsInvisible(s.output);
  }

  lemma ReaderTestKeeps<D>(cfg: Config<D>, d0: D, s: System<D>)
    requires SystemInv(cfg, d0, s) && Enabled(cfg, s, ReaderStep) && s.reader.ReaderTest?
    ensures SystemInv(cfg, d0, Step(cfg, s, ReaderStep))
  {
    TestsInvisible(s.output);
  }

  lemma ReaderCopyKeeps<D>(cfg: Config<D>, d0: D, s: System<D>)
    requires SystemInv(cfg, d0, s) && Enabled(cfg, s, ReaderStep)
    requires s.reader.ReaderHeader? || s.reader.ReaderPayload?
    ensures SystemInv(cfg, d0, Step(cfg, s, ReaderStep))
  {
    if s.reader.ReaderPayload? {
      assert Front(s.output).(header := s.reader.header) == Front(s.output);
    }
  }

  lemma ReaderReleaseKeeps<D>(cfg: Config<D>, d0: D, s: System<D>)
    requires SystemInv(cfg, d0, s) && Enabled(cfg, s, ReaderStep) && s.reader.ReaderRelease?
    ensures SystemInv(cfg, d0, Step(cfg, s, ReaderStep))
  {
    FrontIsOldest(s.output);
    ReleaseDequeues(s.output);
  }

  lemma WriterKeeps<D>(cfg: Config<D>, d0: D, s: System<D>)
    requires SystemInv(cfg, d0, s) && Enabled(cfg, s, WriterStep)
    ensures SystemInv(cfg, d0, Step(cfg, s, WriterStep))
  {
    match s.writer
    case WriterAcquiring(_) => WriterAcquireKeeps(cfg, d0, s);
    case WriterHeader(_) => WriterHeaderKeeps(cfg, d0, s);
    case WriterPayload(_) => WriterPayloadKeeps(cfg, d0, s);
    case WriterPublish(_) => WriterPublishKeeps(cfg, d0, s);
    case WriterPost => WriterPostKeeps(cfg, d0, s);
  }

  lemma AudioKeeps<D>(cfg: Config<D>, d0: D, s: System<D>)
    requires SystemInv(cfg, d0, s) && Enabled(cfg, s, AudioStep)
    ensures SystemInv(cfg, d0, Step(cfg, s, AudioStep))
  {
    match s.audio
    case ReadLoad => AudioReadLoadKeeps(cfg, d0, s);
    case ReadTest => AudioReadTestKeeps(cfg, d0, s);
    case AcquireLoad => AudioAcquireLoadKeeps(cfg, d0, s);
    case AcquireTest => AudioAcquireTestKeeps(cfg, d0, s);
    case DropRelease(_) => AudioDropKeeps(cfg, d0, s);
    case CopyHeader => AudioCopyHeaderKeeps(cfg, d0, s);
    case PublishOut(_) => AudioPublishKeeps(cfg, d0, s);
    case ReleaseIn => AudioReleaseKeeps(cfg, d0, s);
    case CountDropped => AudioCountersKeep(cfg, d0, s);
    case CountProcessed => AudioCountersKeep(cfg, d0, s);
    case SignalOut => AudioCountersKeep(cfg, d0, s);
  }

  lemma ReaderKeeps<D>(cfg: Config<D>, d0: D, s: System<D>)
    requires SystemInv(cfg, d0, s) && Enabled(cfg, s, ReaderStep)
    ensures SystemInv(cfg, d0, Step(cfg, s, ReaderStep))
  {
    match s.reader
    case ReaderIdle => ReaderLoadKeeps(cfg, d0, s);
    case ReaderTest => ReaderTestKeeps(cfg, d0, s);
    case ReaderHeader => ReaderCopyKeeps(cfg, d0, s);
    case ReaderPayload(_) => ReaderCopyKeeps(cfg, d0, s);
    case ReaderRelease(_) => ReaderReleaseKeeps(cfg, d0, s);
  }

  lemma StepKeeps<D>(cfg: Config<D>, d0: D, s: System<D>, e: Event)
    requires SystemInv(cfg, d0, s) && Enabled(cfg, s, e)
    requires e.WriterStart? ==> Fits(cfg, e.block)
    ensures SystemInv(cfg, d0, Step(cfg, s, e))
  {
    match e
    case WriterStart(b) => WriterStartKeeps(cfg, d0, s, b);
    case WriterStep => WriterKeeps(cfg, d0, s);
    case Wake => OuterLoopKeeps(cfg, d0, s, e);
    case Timeout => OuterLoopKeeps(cfg, d0, s, e);
    case Stop => OuterLoopKeeps(cfg, d0, s, e);
    case AudioStep => AudioKeeps(cfg, d0, s);
    case Dispatch(obs) => DispatchKeeps(cfg, d0, s, obs);
    case ReaderStep => ReaderKeeps(cfg, d0, s);
  }

  lemma {:induction false} RunKeeps<D>(cfg: Config<D>, d0: D, s: System<D>, events: seq<Event>, s': System<D>)
    requires SystemInv(cfg, d0, s) && IsRun(cfg, s, events, s')
    ensures SystemInv(cfg, d0, s')
    decreases |events|
  {
    if events == [] {
    } else {
      StepKeeps(cfg, d0, s, events[0]);
      RunKeeps(cfg, d0, Step(cfg, s, events[0]), events[1..], s');
    }
  }

  /** The invariant holds after every run from the freshly created rings. */
  lemma EveryRun<D>(cfg: Config<D>, s: System<D>, events: seq<Event>, s': System<D>)
    requires Init(cfg, s) && IsRun(cfg, s, events, s')
    ensures SystemInv(cfg, s.dsp, s')
  {
    RunKeeps(cfg, s.dsp, s, events, s');
  }
}
