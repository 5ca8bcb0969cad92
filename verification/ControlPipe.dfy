/** Length-prefixed framing over a byte stream that delivers and accepts bytes in arbitrary pieces. */
module ControlPipe {
  import opened Wrappers
  import opened Bits
  import opened Codec

  const MAX_PAYLOAD: nat := 0x10_0000

  datatype Message = Message(tag: Byte, payload: seq<Byte>)

  function FrameHeader(size: nat, tag: Byte): (r: seq<Byte>)
    ensures |r| == 5
  {
    ToLe((size + 1) % WORD32, U32_BYTES) + [tag]
  }

  /** The wire format: u32 length of tag and payload together, tag, payload. */
  function Frame(m: Message): seq<Byte> {
    FrameHeader(|m.payload|, m.tag) + m.payload
  }

  function Frames(ms: seq<Message>): seq<Byte> {
    if ms == [] then [] else Frame(ms[0]) + Frames(ms[1..])
  }

  // ---- The receiver's view of a stream ----

  datatype Parsed = Got(message: Message, rest: seq<Byte>) | BadLength(rest: seq<Byte>) | Incomplete

  /** What one `Recv` makes of a stream if nothing times out and nobody closes. A zero or oversized
      length is rejected after its four bytes have been consumed. */
  function Parse(stream: seq<Byte>): Parsed {
    if |stream| < 4 then Incomplete
    else
      var length := FromLe(stream[..4]);
      if length == 0 || length > MAX_PAYLOAD then BadLength(stream[4..])
      else if |stream| < 4 + length then Incomplete
      else Got(Message(stream[4], stream[5..4 + length]), stream[4 + length..])
  }

  /** A length of zero or beyond 2^20 is rejected as soon as it is there; a shorter one waits for all its bytes. */
  lemma ParseExactly(stream: seq<Byte>)
    ensures Parse(stream).BadLength? <==>
      |stream| >= 4 && (FromLe(stream[..4]) == 0 || FromLe(stream[..4]) > 0x10_0000)
    ensures Parse(stream).Got? <==>
      |stream| >= 4 && 0 < FromLe(stream[..4]) <= 0x10_0000 && |stream| >= 4 + FromLe(stream[..4])
    ensures Parse(stream).BadLength? ==> Parse(stream).rest == stream[4..]
  {
  }

  datatype Received = Delivered(message: Message) | Rejected

  /** What a receiver calling `Recv` over and over sees, and what is left when it has to wait. */
  function Session(stream: seq<Byte>): (r: (seq<Received>, seq<Byte>))
    ensures |r.1| <= |stream|
    decreases |stream|
  {
    match Parse(stream)
    case Incomplete => ([], stream)
    case BadLength(rest) =>
      var s := Session(rest);
      ([Rejected] + s.0, s.1)
    case Got(m, rest) =>
      var s := Session(rest);
      ([Delivered(m)] + s.0, s.1)
  }

  function Messages(rs: seq<Received>): seq<Message> {
    if rs == [] then []
    else (if rs[0].Delivered? then [rs[0].message] else []) + Messages(rs[1..])
  }

  /** The messages a receiver gets out of a stream. */
  function Heard(stream: seq<Byte>): seq<Message> {
    Messages(Session(stream).0)
  }

  lemma MessagesStep(r: Received, rs: seq<Received>)
    ensures Messages([r] + rs) == (if r.Delivered? then [r.message] else []) + Messages(rs)
  {
    assert ([r] + rs)[1..] == rs;
  }

  lemma HeardStep(stream: seq<Byte>)
    ensures match Parse(stream)
      case Incomplete => Heard(stream) == []
      case BadLength(rest) => Heard(stream) == Heard(rest)
      case Got(m, rest) => Heard(stream) == [m] + Heard(rest)
  {
    match Parse(stream)
    case Incomplete =>
    case BadLength(rest) => MessagesStep(Rejected, Session(rest).0);
    case Got(m, rest) => MessagesStep(Delivered(m), Session(rest).0);
  }

  function AllDelivered(ms: seq<Message>): (r: seq<Received>)
    ensures |r| == |ms|
  {
    seq(|ms|, i requires 0 <= i < |ms| => Delivered(ms[i]))
  }

  lemma {:induction false} DeliveredMessages(ms: seq<Message>)
    ensures Messages(AllDelivered(ms)) == ms
  {
    if ms == [] {
    } else {
      assert AllDelivered(ms)[1..] == AllDelivered(ms[1..]);
      DeliveredMessages(ms[1..]);
    }
  }

  /** What `Recv` accepts back: one byte less than what `Send` accepts. */
  predicate Receivable(m: Message) {
    |m.payload| < 0x10_0000
  }

  predicate Sendable(m: Message) {
    |m.payload| <= 0x10_0000
  }

  lemma FrameLength(m: Message)
    requires Sendable(m)
    ensures |Frame(m)| == 5 + |m.payload| && FromLe(Frame(m)[..4]) == |m.payload| + 1
  {
    var n := |m.payload| + 1;
    WordSizes();
    DivModUnique(n, WORD32, 0, n);
    assert Frame(m)[..4] == ToLe(n, U32_BYTES);
    DecodeEncode(n, U32_BYTES);
  }

  /** Where the parts of a frame lie in a stream that starts with it. */
  lemma FrameParts(m: Message, rest: seq<Byte>)
    ensures var s, n := Frame(m) + rest, |m.payload| + 1;
      && |s| == 4 + n + |rest| && s[..4] == Frame(m)[..4] && s[4..] == [m.tag] + m.payload + rest
      && s[4] == m.tag && s[5..4 + n] == m.payload && s[4 + n..] == rest
  {
  }

  lemma ParseFrame(m: Message, rest: seq<Byte>)
    requires Sendable(m)
    ensures Receivable(m) ==> Parse(Frame(m) + rest) == Got(m, rest)
    ensures !Receivable(m) ==> Parse(Frame(m) + rest) == BadLength([m.tag] + m.payload + rest)
  {
    FrameLength(m);
    FrameParts(m, rest);
  }

  lemma SliceOfDrop(s: seq<Byte>, a: nat, i: nat, j: nat)
    requires i <= j && a + j <= |s|
    ensures s[a..][i..j] == s[a + i..a + j]
  {
  }

  lemma DropTwice(s: seq<Byte>, a: nat, b: nat)
    requires a + b <= |s|
    ensures s[a..][b..] == s[a + b..]
  {
  }

  lemma ParseAtBody(stream: seq<Byte>, length: nat)
    requires |stream| >= 4 && FromLe(stream[..4]) == length && 0 < length <= MAX_PAYLOAD
    ensures var body := stream[4..];
      Parse(stream) ==
        if |body| < length then Incomplete else Got(Message(body[0], body[1..length]), body[length..])
  {
    if |stream| >= 4 + length {
      SliceOfDrop(stream, 4, 1, length);
      DropTwice(stream, 4, length);
    }
  }

  lemma Halves(a: seq<Byte>, b: seq<Byte>)
    ensures (a + b)[..|a|] == a && (a + b)[|a|..] == b
  {
  }

  lemma SessionTakesFrame(m: Message, rest: seq<Byte>)
    requires Receivable(m)
    ensures Session(Frame(m) + rest) == ([Delivered(m)] + Session(rest).0, Session(rest).1)
  {
    ParseFrame(m, rest);
  }

  lemma SessionRejectsFrame(m: Message, rest: seq<Byte>)
    requires Sendable(m) && !Receivable(m)
    ensures Session(Frame(m) + rest).0 != [] && Session(Frame(m) + rest).0[0] == Rejected
  {
    ParseFrame(m, rest);
  }

  lemma AllDeliveredSplit(ms: seq<Message>, more: seq<Received>)
    requires ms != []
    ensures AllDelivered(ms) + more == [Delivered(ms[0])] + (AllDelivered(ms[1..]) + more)
  {
  }

  /** Every sequence of small enough messages comes out as it went in, with no byte left over, even
      with more bytes behind it. */
  lemma {:induction false} SmallMessagesRoundTrip(ms: seq<Message>, rest: seq<Byte>)
    requires forall i :: 0 <= i < |ms| ==> Receivable(ms[i])
    ensures Session(Frames(ms) + rest).0 == AllDelivered(ms) + Session(rest).0
    ensures Session(Frames(ms) + rest).1 == Session(rest).1
  {
    if ms == [] {
      assert Frames(ms) + rest == rest;
    } else {
      var f, fs := Frame(ms[0]), Frames(ms[1..]);
      assert Frames(ms) + rest == f + (fs + rest) by {
        Reassociate(f, fs, rest);
      }
      SessionTakesFrame(ms[0], fs + rest);
      SmallMessagesRoundTrip(ms[1..], rest);
      AllDeliveredSplit(ms, Session(rest).0);
    }
  }

  lemma {:induction false} FramesCompose(a: seq<Message>, b: seq<Message>)
    ensures Frames(a + b) == Frames(a) + Frames(b)
  {
    if a == [] {
      assert a + b == b;
    } else {
      assert (a + b)[1..] == a[1..] + b;
      FramesCompose(a[1..], b);
    }
  }

  lemma LargeMessageRejected(ms: seq<Message>, j: nat)
    requires j < |ms| && Sendable(ms[j]) && !Receivable(ms[j])
    requires forall i :: 0 <= i < j ==> Receivable(ms[i])
    ensures |Session(Frames(ms)).0| > j && Session(Frames(ms)).0[j] == Rejected
  {
    var after := Frames(ms[j + 1..]);
    assert ms == ms[..j] + ms[j..] && ms[j..][0] == ms[j] && ms[j..][1..] == ms[j + 1..];
    FramesCompose(ms[..j], ms[j..]);
    assert Frames(ms) == Frames(ms[..j]) + (Frame(ms[j]) + after);
    SmallMessagesRoundTrip(ms[..j], Frame(ms[j]) + after);
    SessionRejectsFrame(ms[j], after);
  }

  lemma AllSmallDelivered(ms: seq<Message>)
    requires forall i :: 0 <= i < |ms| ==> Receivable(ms[i])
    ensures Session(Frames(ms)) == (AllDelivered(ms), [])
  {
    var none: seq<Byte> := [];
    assert Frames(ms) + none == Frames(ms);
    assert Session(none) == ([], none);
    SmallMessagesRoundTrip(ms, none);
    assert AllDelivered(ms) + [] == AllDelivered(ms);
  }

  lemma FirstTooLarge(ms: seq<Message>) returns (j: nat)
    requires !(forall i :: 0 <= i < |ms| ==> Receivable(ms[i]))
    ensures j < |ms| && !Receivable(ms[j]) && forall i :: 0 <= i < j ==> Receivable(ms[i])
  {
    j := 0;
    while Receivable(ms[j])
      invariant j < |ms| && forall i :: 0 <= i < j ==> Receivable(ms[i])
      invariant exists i :: j <= i < |ms| && !Receivable(ms[i])
      decreases |ms| - j
    {
      j := j + 1;
    }
  }

  lemma SomeLargeNotDelivered(ms: seq<Message>)
    requires forall i :: 0 <= i < |ms| ==> Sendable(ms[i])
    requires !(forall i :: 0 <= i < |ms| ==> Receivable(ms[i]))
    ensures Session(Frames(ms)).0 != AllDelivered(ms)
  {
    var j := FirstTooLarge(ms);
    LargeMessageRejected(ms, j);
    assert AllDelivered(ms)[j] == Delivered(ms[j]);
  }

  /** The exact condition: of the messages `Send` accepts, the receiver gets back precisely what was
      sent if and only if every payload is at most 2^20 - 1 bytes. */
  lemma RoundTripExactly(ms: seq<Message>)
    requires forall i :: 0 <= i < |ms| ==> Sendable(ms[i])
    ensures Session(Frames(ms)) == (AllDelivered(ms), []) <==>
      forall i :: 0 <= i < |ms| ==> Receivable(ms[i])
  {
    if forall i :: 0 <= i < |ms| ==> Receivable(ms[i]) {
      AllSmallDelivered(ms);
    } else {
      SomeLargeNotDelivered(ms);
    }
  }

  // ---- Bytes are accounted for ----

  /** The bytes a receiver has consumed for what it has seen. */
  function BytesOf(rs: seq<Received>): nat {
    if rs == [] then 0
    else (if rs[0].Delivered? then 5 + |rs[0].message.payload| else 4) + BytesOf(rs[1..])
  }

  lemma {:induction false} SessionAccounts(stream: seq<Byte>)
    ensures |stream| == BytesOf(Session(stream).0) + |Session(stream).1|
    decreases |stream|
  {
    match Parse(stream)
    case Incomplete =>
    case BadLength(rest) => SessionAccounts(rest);
    case Got(_, rest) => SessionAccounts(rest);
  }

  lemma {:induction false} FramesAccount(ms: seq<Message>)
    ensures BytesOf(AllDelivered(ms)) == |Frames(ms)|
  {
    if ms == [] {
    } else {
      assert AllDelivered(ms)[1..] == AllDelivered(ms[1..]);
      FramesAccount(ms[1..]);
    }
  }

  /** Of receivable messages everything is delivered exactly if no byte of the stream is missing in front. */
  lemma CutStreamLoses(ms: seq<Message>, k: nat)
    requires (forall i :: 0 <= i < |ms| ==> Receivable(ms[i])) && k <= |Frames(ms)|
    ensures Session(Frames(ms)[k..]) == (AllDelivered(ms), []) <==> k == 0
  {
    if k == 0 {
      AllSmallDelivered(ms);
      assert Frames(ms)[0..] == Frames(ms);
    } else {
      SessionAccounts(Frames(ms)[k..]);
      FramesAccount(ms);
    }
  }

  lemma FourBytes(a: Byte, b: Byte, c: Byte, d: Byte)
    ensures FromLe([a, b, c, d]) == a + 256 * (b + 256 * (c + 256 * d))
  {
    assert [a, b, c, d][1..] == [b, c, d] && [b, c, d][1..] == [c, d] && [c, d][1..] == [d];
    assert [d][1..] == [] && FromLe([d]) == d;
    assert FromLe([c, d]) == [c, d][0] + 256 * FromLe([c, d][1..]);
    assert FromLe([b, c, d]) == [b, c, d][0] + 256 * FromLe([b, c, d][1..]);
  }

  lemma ShortFrame(m: Message)
    requires m.payload == []
    ensures Frame(m) == [1, 0, 0, 0, m.tag]
  {
    FourBytes(1, 0, 0, 0);
    EncodeDecode([1, 0, 0, 0]);
  }

  // ---- The socket ----

  /** What one `send` call does: accept up to `n` bytes, be interrupted, or fail. */
  datatype SendOutcome = Accept(n: nat) | SendInterrupted | SendFailed

  /** What one turn of the receive loop runs into: the deadline; `poll` interrupted, failed, timed out
      or reporting a hang-up; or `recv` interrupted, failed, at end of file or delivering up to `n` bytes. */
  datatype RecvOutcome =
    | DeadlinePassed | PollInterrupted | PollFailed | PollTimedOut | HungUp
    | RecvInterrupted | RecvFailed | EndOfFile | Deliver(n: nat)

  predicate IsProgress(o: RecvOutcome) {
    o.PollInterrupted? || o.RecvInterrupted? || (o.Deliver? && o.n > 0)
  }

  function Deliveries(script: seq<RecvOutcome>): nat {
    if script == [] then 0 else (if script[0].Deliver? then 1 else 0) + Deliveries(script[1..])
  }

  /** Nothing goes wrong, and the stream keeps delivering until `needed` bytes have arrived, in
      whatever pieces. */
  ghost predicate Smooth(script: seq<RecvOutcome>, needed: nat) {
    (forall i :: 0 <= i < |script| ==> IsProgress(script[i])) && Deliveries(script) >= needed
  }

  // ---- Receiving, as a function of what the calls run into ----

  /** How a receive ends: bytes consumed, and the outcomes of the calls still to come. */
  datatype Reception = Reception(ok: bool, closed: bool, consumed: nat, recvs: seq<RecvOutcome>)

  /** The same ending after `k` bytes more. */
  function Later(r: Reception, k: nat): Reception {
    Reception(r.ok, r.closed, k + r.consumed, r.recvs)
  }

  /** Reading exactly `n` bytes of which `available` can arrive. */
  function Reading(recvs: seq<RecvOutcome>, available: nat, n: nat): (r: Reception)
    ensures r.consumed <= available && r.consumed <= n && (r.ok <==> r.consumed == n) && (r.ok ==> !r.closed)
    ensures |r.recvs| <= |recvs| && (n > 0 && recvs != [] ==> |r.recvs| < |recvs|)
    decreases |recvs|
  {
    if n == 0 then Reception(true, false, 0, recvs)
    else if recvs == [] then Reception(false, false, 0, [])
    else match recvs[0]
      case PollInterrupted => Reading(recvs[1..], available, n)
      case RecvInterrupted => Reading(recvs[1..], available, n)
      case HungUp => Reception(false, true, 0, recvs[1..])
      case EndOfFile => Reception(false, true, 0, recvs[1..])
      case Deliver(m) =>
        if m == 0 || available == 0 then Reception(false, false, 0, recvs[1..])
        else
          var got := Min(Min(m, n), available);
          Later(Reading(recvs[1..], available - got, n - got), got)
      case _ => Reception(false, false, 0, recvs[1..])
  }

  lemma LaterTwice(r: Reception, i: nat, j: nat)
    ensures Later(Later(r, i), j) == Later(r, i + j)
  {
  }

  /** One arrival on the way to `n` bytes. */
  lemma ReadingArrival(recvs: seq<RecvOutcome>, available: nat, n: nat)
    requires recvs != [] && recvs[0].Deliver? && recvs[0].n > 0 && available > 0 && n > 0
    ensures var got := Min(Min(recvs[0].n, n), available);
      var rest := Reading(recvs[1..], available - got, n - got);
      Reading(recvs, available, n) == Later(rest, got)
  {
  }

  /** Tag and payload. */
  function ReadingBody(recvs: seq<RecvOutcome>, available: nat, length: nat): (r: Reception)
    requires length > 0
    ensures r.consumed <= available && r.consumed <= length && (r.ok <==> r.consumed == length) && (r.ok ==> !r.closed)
    ensures |r.recvs| <= |recvs|
  {
    var tag := Reading(recvs, available, 1);
    if !tag.ok then tag
    else
      Later(Reading(tag.recvs, available - 1, length - 1), 1)
  }

  /** One message off the front of `stream`. */
  function Receive(recvs: seq<RecvOutcome>, stream: seq<Byte>): (r: Reception)
    ensures r.consumed <= |stream|
    ensures recvs != [] ==> |r.recvs| < |recvs|
    ensures r.ok ==> Parse(stream).Got? && stream[r.consumed..] == Parse(stream).rest
  {
    var head := Reading(recvs, |stream|, 4);
    if !head.ok then head
    else
      var length := FromLe(stream[..4]);
      if length == 0 || length > MAX_PAYLOAD then Reception(false, false, 4, head.recvs)
      else
        Later(ReadingBody(head.recvs, |stream| - 4, length), 4)
  }

  /** Interruptions aside, the first thing to happen is the arrival of bytes. */
  predicate ArrivesFirst(recvs: seq<RecvOutcome>) {
    if recvs == [] then false
    else if recvs[0].PollInterrupted? || recvs[0].RecvInterrupted? then ArrivesFirst(recvs[1..])
    else recvs[0].Deliver? && recvs[0].n > 0
  }

  lemma {:induction false} ReadingStarts(recvs: seq<RecvOutcome>, available: nat, n: nat)
    requires n > 0 && available > 0
    ensures Reading(recvs, available, n).consumed > 0 <==> ArrivesFirst(recvs)
  {
    if recvs != [] && (recvs[0].PollInterrupted? || recvs[0].RecvInterrupted?) {
      ReadingStarts(recvs[1..], available, n);
    }
  }

  /** A receive that fails leaves the stream intact exactly if it failed before any byte arrived: after
      a timeout, a hang-up or an error later than that, what follows is not what was sent. */
  lemma FailedReceiveLoses(ms: seq<Message>, recvs: seq<RecvOutcome>)
    requires (forall i :: 0 <= i < |ms| ==> Receivable(ms[i])) && ms != []
    requires !Receive(recvs, Frames(ms)).ok
    ensures var left := Frames(ms)[Receive(recvs, Frames(ms)).consumed..];
      Session(left) == (AllDelivered(ms), []) <==> !ArrivesFirst(recvs)
  {
    var stream := Frames(ms);
    CutStreamLoses(ms, Receive(recvs, stream).consumed);
    ReadingStarts(recvs, |stream|, 4);
  }

  lemma TwoShortFrames(a: Message, b: Message)
    requires a.payload == [] && b.payload == []
    ensures Frames([a, b]) == [1, 0, 0, 0, a.tag, 1, 0, 0, 0, b.tag]
  {
    ShortFrame(a);
    ShortFrame(b);
    assert [a, b][1..] == [b] && [b][1..] == [];
    assert Frames([b]) == Frame(b) + [];
  }

  /** The length word of the first, then what the second receive makes of the rest. */
  lemma CutShortFrames(a: Byte, b: Byte)
    requires 0 < a
    ensures var stream := [1, 0, 0, 0, a, 1, 0, 0, 0, b];
      FromLe(stream[..4]) == 1 && Session(stream[4..]).0 == []
  {
    var stream := [1, 0, 0, 0, a, 1, 0, 0, 0, b];
    assert stream[..4] == [1, 0, 0, 0] && stream[4..][..4] == [a, 1, 0, 0];
    FourBytes(1, 0, 0, 0);
    FourBytes(a, 1, 0, 0);
    assert Parse(stream[4..]) == Incomplete;
  }

  lemma TimedOutInside(recvs: seq<RecvOutcome>, available: nat)
    requires available > 4
    ensures var all := [Deliver(4), DeadlinePassed] + recvs;
      Reading(all, available, 4) == Reception(true, false, 4, [DeadlinePassed] + recvs)
    ensures Reading([DeadlinePassed] + recvs, available - 4, 1) == Reception(false, false, 0, recvs)
  {
    assert ([Deliver(4), DeadlinePassed] + recvs)[1..] == [DeadlinePassed] + recvs;
    assert ([DeadlinePassed] + recvs)[1..] == recvs;
  }

  /** The tag of the message that ends a session. */
  const GOODBYE: Byte := 4

  /** For instance: a heartbeat's four length bytes arrive, then the time is up. Its tag and the start of
      the goodbye behind it read as the length 259, and the goodbye is never seen. */
  lemma TimeoutLosesTheGoodbye(recvs: seq<RecvOutcome>)
    ensures var heartbeat, goodbye := Message(3, []), Message(4, []);
      var stream := Frames([heartbeat, goodbye]);
      && Session(stream).0 == [Delivered(heartbeat), Delivered(goodbye)]
      && Receive([Deliver(4), DeadlinePassed] + recvs, stream) == Reception(false, false, 4, recvs)
      && Session(stream[4..]).0 == []
  {
    var heartbeat, goodbye := Message(3, []), Message(4, []);
    var ms := [heartbeat, goodbye];
    RoundTripExactly(ms);
    assert AllDelivered(ms) == [Delivered(heartbeat), Delivered(goodbye)];
    TwoShortFrames(heartbeat, goodbye);
    CutShortFrames(3, 4);
    TimedOutInside(recvs, 10);
  }

  // ---- How a read ends, told by the outcomes alone ----

  /** The peer has hung up, or sent its end of file. */
  predicate Closes(o: RecvOutcome) {
    o.HungUp? || o.EndOfFile?
  }

  /** The bytes offered by the first `k` outcomes. */
  function Arrived(recvs: seq<RecvOutcome>, k: nat): nat
    requires k <= |recvs|
  {
    if k == 0 then 0 else (if recvs[0].Deliver? then recvs[0].n else 0) + Arrived(recvs[1..], k - 1)
  }

  /** A read goes on after outcome `j`: an interruption, or the arrival of a byte that is still to come. */
  ghost predicate GoesOn(recvs: seq<RecvOutcome>, available: nat, j: nat)
    requires j < |recvs|
  {
    IsProgress(recvs[j]) && (recvs[j].Deliver? ==> Arrived(recvs, j) < available)
  }

  /** Outcome `k` is the first from which a read does not go on; it is the number of outcomes if there is none. */
  ghost predicate FirstStop(recvs: seq<RecvOutcome>, available: nat, k: nat) {
    && k <= |recvs| && (forall j :: 0 <= j < k ==> GoesOn(recvs, available, j))
    && (k < |recvs| ==> !GoesOn(recvs, available, k))
  }

  /** The same, seen after the first outcome, which took `got` bytes off the stream. */
  lemma FirstStopLater(recvs: seq<RecvOutcome>, available: nat, k: nat, got: nat)
    requires FirstStop(recvs, available, k) && k > 0 && got <= available
    requires var n := if recvs[0].Deliver? then recvs[0].n else 0; got == if n <= available then n else available
    ensures FirstStop(recvs[1..], available - got, k - 1)
  {
    var rest, left := recvs[1..], available - got;
    assert GoesOn(recvs, available, 0);
    forall j: nat | j < |rest| ensures GoesOn(rest, left, j) <==> GoesOn(recvs, available, j + 1) {
      assert rest[j] == recvs[j + 1];
    }
    assert k < |recvs| ==> !GoesOn(recvs, available, k - 1 + 1);
  }

  /** The read of `n` bytes consumes what has arrived before the first stop, up to what it wants and what there
      is; if that is too little it fails, and then the connection is closed exactly if it stopped at a
      hang-up or an end of file. */
  ghost predicate EndsAt(r: Reception, recvs: seq<RecvOutcome>, available: nat, n: nat, k: nat) {
    && k <= |recvs|
    && r.consumed == Min(n, Min(available, Arrived(recvs, k)))
    && (r.ok <==> n <= available && n <= Arrived(recvs, k))
    && (!r.ok ==>
          r.closed == (k < |recvs| && Closes(recvs[k])) && r.recvs == recvs[if k < |recvs| then k + 1 else k..])
  }

  lemma EndsAtOnce(recvs: seq<RecvOutcome>, available: nat, n: nat)
    requires n > 0 && FirstStop(recvs, available, 0)
    ensures EndsAt(Reading(recvs, available, n), recvs, available, n, 0)
  {
    if recvs != [] {
      assert !GoesOn(recvs, available, 0);
    }
  }

  lemma EndsLater(r: Reception, recvs: seq<RecvOutcome>, available: nat, n: nat, k: nat, got: nat)
    requires recvs != [] && k > 0 && n > 0 && got <= available && got < n
    requires EndsAt(r, recvs[1..], available - got, n - got, k - 1)
    requires var m := if recvs[0].Deliver? then recvs[0].n else 0; got == Min(m, available)
    ensures EndsAt(Later(r, got), recvs, available, n, k)
  {
    var x := if k < |recvs| then k else k - 1;
    assert recvs[1..][x..] == recvs[x + 1..];
  }

  lemma LaterByNothing(r: Reception)
    ensures Later(r, 0) == r
  {
  }

  lemma ReadingEnough(recvs: seq<RecvOutcome>, available: nat, n: nat, k: nat)
    requires 0 < k <= |recvs| && recvs[0].Deliver? && recvs[0].n >= n > 0 && available >= n
    ensures EndsAt(Reading(recvs, available, n), recvs, available, n, k)
  {
    ReadingArrival(recvs, available, n);
  }

  /** A read, by its script. */
  lemma {:induction false} ReadingExactly(recvs: seq<RecvOutcome>, available: nat, n: nat, k: nat)
    requires n > 0 && FirstStop(recvs, available, k)
    ensures EndsAt(Reading(recvs, available, n), recvs, available, n, k)
    decreases |recvs|
  {
    if k == 0 {
      EndsAtOnce(recvs, available, n);
    } else {
      assert GoesOn(recvs, available, 0);
      var m := if recvs[0].Deliver? then recvs[0].n else 0;
      var got := Min(m, available);
      if got >= n {
        ReadingEnough(recvs, available, n, k);
      } else {
        FirstStopLater(recvs, available, k, got);
        ReadingExactly(recvs[1..], available - got, n - got, k - 1);
        var rest := Reading(recvs[1..], available - got, n - got);
        EndsLater(rest, recvs, available, n, k, got);
        LaterByNothing(rest);
        if recvs[0].Deliver? {
          ReadingArrival(recvs, available, n);
        }
      }
    }
  }

  /** The outcomes are used up one by one, and a closed connection is reported exactly if the last one used
      closed it. */
  predicate UsesUp(r: Reception, recvs: seq<RecvOutcome>) {
    && |r.recvs| <= |recvs|
    && var used := |recvs| - |r.recvs|;
       r.recvs == recvs[used..] && (r.closed <==> used > 0 && Closes(recvs[used - 1]))
  }

  lemma UsesUpAfter(first: Reception, r: Reception, recvs: seq<RecvOutcome>, k: nat)
    requires UsesUp(first, recvs) && !first.closed && UsesUp(r, first.recvs)
    ensures UsesUp(Later(r, k), recvs)
  {
  }

  lemma UsesUpOne(r: Reception, recvs: seq<RecvOutcome>, k: nat)
    requires recvs != [] && !Closes(recvs[0]) && UsesUp(r, recvs[1..])
    ensures UsesUp(Later(r, k), recvs)
  {
    UsesUpAfter(Reception(true, false, 0, recvs[1..]), r, recvs, k);
  }

  lemma UsesUpNone(r: Reception)
    requires !r.closed
    ensures UsesUp(r, r.recvs)
  {
  }

  lemma UsesUpFirst(r: Reception, recvs: seq<RecvOutcome>)
    requires recvs != [] && r.recvs == recvs[1..] && r.closed == Closes(recvs[0])
    ensures UsesUp(r, recvs)
  {
  }

  lemma ArrivalUses(recvs: seq<RecvOutcome>, available: nat, n: nat)
    requires recvs != [] && recvs[0].Deliver? && recvs[0].n > 0 && available > 0 && n > 0
    requires var got := Min(Min(recvs[0].n, n), available);
      UsesUp(Reading(recvs[1..], available - got, n - got), recvs[1..])
    ensures UsesUp(Reading(recvs, available, n), recvs)
  {
    var got := Min(Min(recvs[0].n, n), available);
    ReadingArrival(recvs, available, n);
    UsesUpOne(Reading(recvs[1..], available - got, n - got), recvs, got);
  }

  lemma ReadingInterrupted(recvs: seq<RecvOutcome>, available: nat, n: nat)
    requires recvs != [] && (recvs[0].PollInterrupted? || recvs[0].RecvInterrupted?) && n > 0
    ensures Reading(recvs, available, n) == Reading(recvs[1..], available, n)
  {
  }

  lemma UsesUpInterrupted(r: Reception, recvs: seq<RecvOutcome>)
    requires recvs != [] && !Closes(recvs[0]) && UsesUp(r, recvs[1..])
    ensures UsesUp(r, recvs)
  {
    UsesUpOne(r, recvs, 0);
    LaterByNothing(r);
  }

  lemma StopUses(recvs: seq<RecvOutcome>, available: nat, n: nat)
    requires recvs != [] && n > 0 && !GoesOn(recvs, available, 0)
    ensures UsesUp(Reading(recvs, available, n), recvs)
  {
    UsesUpFirst(Reading(recvs, available, n), recvs);
  }

  lemma {:induction false} ReadingUses(recvs: seq<RecvOutcome>, available: nat, n: nat)
    ensures UsesUp(Reading(recvs, available, n), recvs)
    decreases |recvs|
  {
    if n == 0 || recvs == [] {
      UsesUpNone(Reading(recvs, available, n));
    } else if recvs[0].PollInterrupted? || recvs[0].RecvInterrupted? {
      ReadingUses(recvs[1..], available, n);
      UsesUpInterrupted(Reading(recvs[1..], available, n), recvs);
      ReadingInterrupted(recvs, available, n);
    } else if recvs[0].Deliver? && recvs[0].n > 0 && available > 0 {
      var got := Min(Min(recvs[0].n, n), available);
      ReadingUses(recvs[1..], available - got, n - got);
      ArrivalUses(recvs, available, n);
    } else {
      StopUses(recvs, available, n);
    }
  }

  lemma BodyUses(recvs: seq<RecvOutcome>, available: nat, length: nat)
    requires length > 0
    ensures UsesUp(ReadingBody(recvs, available, length), recvs)
  {
    var tag := Reading(recvs, available, 1);
    ReadingUses(recvs, available, 1);
    if tag.ok {
      ReadingUses(tag.recvs, available - 1, length - 1);
      UsesUpAfter(tag, Reading(tag.recvs, available - 1, length - 1), recvs, 1);
    }
  }

  lemma HeadUses(head: Reception, recvs: seq<RecvOutcome>, stream: seq<Byte>)
    requires head == Reading(recvs, |stream|, 4) && head.ok && UsesUp(head, recvs)
    ensures UsesUp(Receive(recvs, stream), recvs)
  {
    var length := FromLe(stream[..4]);
    if 0 < length <= MAX_PAYLOAD {
      BodyUses(head.recvs, |stream| - 4, length);
      UsesUpAfter(head, ReadingBody(head.recvs, |stream| - 4, length), recvs, 4);
    }
  }

  /** And so is a whole receive: it reports a closed connection exactly if the last outcome it ran into was a
      hang-up or an end of file, wherever in the frame that happened. */
  lemma ReceiveClosesExactly(recvs: seq<RecvOutcome>, stream: seq<Byte>)
    ensures UsesUp(Receive(recvs, stream), recvs)
  {
    var head := Reading(recvs, |stream|, 4);
    ReadingUses(recvs, |stream|, 4);
    if head.ok {
      HeadUses(head, recvs, stream);
    }
  }

  // ---- Smooth streams ----

  lemma {:induction false} SmoothReading(recvs: seq<RecvOutcome>, available: nat, n: nat)
    requires Smooth(recvs, available)
    ensures var r := Reading(recvs, available, n);
      !r.closed && r.consumed == Min(n, available) && Smooth(r.recvs, available - r.consumed)
  {
    if n > 0 && recvs != [] {
      forall i | 0 <= i < |recvs[1..]| ensures IsProgress(recvs[1..][i]) { assert recvs[1..][i] == recvs[i + 1]; }
      assert IsProgress(recvs[0]);
      if !recvs[0].Deliver? {
        SmoothReading(recvs[1..], available, n);
      } else if available > 0 {
        var got := Min(Min(recvs[0].n, n), available);
        SmoothReading(recvs[1..], available - got, n - got);
      }
    }
  }

  lemma SmoothBody(recvs: seq<RecvOutcome>, available: nat, length: nat)
    requires Smooth(recvs, available) && length > 0
    ensures var r := ReadingBody(recvs, available, length);
      !r.closed && r.consumed == Min(length, available) && Smooth(r.recvs, available - r.consumed)
  {
    SmoothReading(recvs, available, 1);
    var tag := Reading(recvs, available, 1);
    if tag.ok {
      SmoothReading(tag.recvs, available - 1, length - 1);
    }
  }

  /** On a smooth stream a receive does exactly what parsing says. */
  lemma SmoothReceive(recvs: seq<RecvOutcome>, stream: seq<Byte>)
    requires Smooth(recvs, |stream|)
    ensures var r := Receive(recvs, stream);
      && !r.closed && Smooth(r.recvs, |stream| - r.consumed)
      && match Parse(stream)
         case Got(_, rest) => r.ok && stream[r.consumed..] == rest
         case BadLength(rest) => !r.ok && stream[r.consumed..] == rest
         case Incomplete => !r.ok && stream[r.consumed..] == []
  {
    SmoothReading(recvs, |stream|, 4);
    var head := Reading(recvs, |stream|, 4);
    if head.ok {
      var length := FromLe(stream[..4]);
      if 0 < length <= MAX_PAYLOAD {
        SmoothBody(head.recvs, |stream| - 4, length);
      }
    }
  }

  // ---- The reader ----

  function UpToGoodbye(ms: seq<Message>): seq<Message> {
    if ms == [] || ms[0].tag == 4 then [] else [ms[0]] + UpToGoodbye(ms[1..])
  }

  predicate SaysGoodbye(ms: seq<Message>) {
    exists i :: 0 <= i < |ms| && ms[i].tag == 4
  }

  datatype ReaderEnd = ReaderEnd(handled: seq<Message>, stopped: bool, rest: seq<Byte>)

  /** The reader's loop, which sees another thread's stop flag after `turns` turns: a failed receive on an
      open connection just tries again; a closed connection and a goodbye make it raise the flag itself. */
  function ReaderRun(turns: nat, recvs: seq<RecvOutcome>, stream: seq<Byte>): ReaderEnd {
    if turns == 0 then ReaderEnd([], false, stream)
    else
      var r := Receive(recvs, stream);
      var rest := stream[r.consumed..];
      if !r.ok then if r.closed then ReaderEnd([], true, rest) else ReaderRun(turns - 1, r.recvs, rest)
      else
        var m := Parse(stream).message;
        if m.tag == GOODBYE then ReaderEnd([], true, rest)
        else
          var later := ReaderRun(turns - 1, r.recvs, rest);
          later.(handled := [m] + later.handled)
  }

  lemma GoodbyeSplits(m: Message, ms: seq<Message>)
    ensures SaysGoodbye([m] + ms) <==> m.tag == 4 || SaysGoodbye(ms)
    ensures UpToGoodbye([m] + ms) == if m.tag == 4 then [] else [m] + UpToGoodbye(ms)
  {
    var all := [m] + ms;
    assert all[1..] == ms;
    if i :| 0 <= i < |ms| && ms[i].tag == 4 {
      assert all[i + 1].tag == 4;
    }
    assert all[0].tag == m.tag;
  }

  /** Seeing the flag earlier cuts the handled messages short, and does nothing else to them. */
  lemma {:induction false} StopCutsShort(turns: nat, more: nat, recvs: seq<RecvOutcome>, stream: seq<Byte>)
    ensures ReaderRun(turns, recvs, stream).handled <= ReaderRun(turns + more, recvs, stream).handled
  {
    if turns == 0 {
    } else {
      var r := Receive(recvs, stream);
      StopCutsShort(turns - 1, more, r.recvs, stream[r.consumed..]);
    }
  }

  /** One turn of the reader while bytes keep flowing: it takes the next message, or a bad length, or the
      bytes of a message that will never be complete. */
  lemma SmoothTurn(recvs: seq<RecvOutcome>, stream: seq<Byte>)
    requires Smooth(recvs, |stream|)
    ensures var r := Receive(recvs, stream);
      var rest := stream[r.consumed..];
      && Smooth(r.recvs, |rest|) && !r.closed && (r.recvs == [] || |r.recvs| < |recvs|)
      && Heard(stream) == (if r.ok then [Parse(stream).message] else []) + Heard(rest)
  {
    HeardStep(stream);
    SmoothReceive(recvs, stream);
    if Parse(stream).Incomplete? {
      HeardStep(stream[Receive(recvs, stream).consumed..]);
    }
  }

  /** The reader handled what it was sent up to a goodbye, stopped if there was one, and else left nothing. */
  ghost predicate Handles(r: ReaderEnd, sent: seq<Message>) {
    r.handled == UpToGoodbye(sent) && r.stopped == SaysGoodbye(sent) && (!r.stopped ==> r.rest == [])
  }

  lemma HandlesOneMore(m: Message, later: ReaderEnd, sent: seq<Message>, rest: seq<Byte>)
    requires Handles(later, sent)
    ensures m.tag == 4 ==> Handles(ReaderEnd([], true, rest), [m] + sent)
    ensures m.tag != 4 ==> Handles(later.(handled := [m] + later.handled), [m] + sent)
  {
    GoodbyeSplits(m, sent);
  }

  /** The reader's turn that took `m` off the stream, and one that took no message. */
  lemma TurnHandles(turns: nat, recvs: seq<RecvOutcome>, stream: seq<Byte>, sent: seq<Message>)
    requires turns > 0 && !Receive(recvs, stream).closed
    requires var r := Receive(recvs, stream);
      Handles(ReaderRun(turns - 1, r.recvs, stream[r.consumed..]), sent)
    ensures var taken := if Receive(recvs, stream).ok then [Parse(stream).message] else [];
      Handles(ReaderRun(turns, recvs, stream), taken + sent)
  {
    var r := Receive(recvs, stream);
    var rest := stream[r.consumed..];
    if r.ok {
      HandlesOneMore(Parse(stream).message, ReaderRun(turns - 1, r.recvs, rest), sent, rest);
    } else {
      assert [] + sent == sent;
    }
  }

  lemma {:induction false} SmoothReader(turns: nat, recvs: seq<RecvOutcome>, stream: seq<Byte>)
    requires Smooth(recvs, |stream|) && turns >= |recvs|
    ensures Handles(ReaderRun(turns, recvs, stream), Heard(stream))
  {
    if turns == 0 {
      HeardStep(stream);
    } else {
      SmoothTurn(recvs, stream);
      var r := Receive(recvs, stream);
      var rest := stream[r.consumed..];
      SmoothReader(turns - 1, r.recvs, rest);
      TurnHandles(turns, recvs, stream, Heard(rest));
    }
  }

  lemma {:induction false} NoGoodbyeAtAll(ms: seq<Message>)
    requires !SaysGoodbye(ms)
    ensures UpToGoodbye(ms) == ms
  {
    if ms == [] {
    } else {
      assert ms == [ms[0]] + ms[1..];
      GoodbyeSplits(ms[0], ms[1..]);
      NoGoodbyeAtAll(ms[1..]);
    }
  }

  lemma FramesHeard(ms: seq<Message>)
    requires forall i :: 0 <= i < |ms| ==> Receivable(ms[i])
    ensures Heard(Frames(ms)) == ms
  {
    AllSmallDelivered(ms);
    DeliveredMessages(ms);
  }

  /** The round trip under fragmentation: whatever the pieces in which the frames of receivable messages
      arrive, the reader handles exactly these messages, in order, up to a goodbye if there is one; and
      without one no byte is left. If it has to stop before, it has handled the first few of them. */
  lemma FramesReadBack(ms: seq<Message>, recvs: seq<RecvOutcome>, turns: nat)
    requires (forall i :: 0 <= i < |ms| ==> Receivable(ms[i])) && Smooth(recvs, |Frames(ms)|)
    ensures ReaderRun(turns, recvs, Frames(ms)).handled <= UpToGoodbye(ms)
    ensures turns >= |recvs| ==>
      var r := ReaderRun(turns, recvs, Frames(ms));
      Handles(r, ms) && (!SaysGoodbye(ms) ==> r.handled == ms)
  {
    FramesHeard(ms);
    SmoothReader(turns + |recvs|, recvs, Frames(ms));
    StopCutsShort(turns, |recvs|, recvs, Frames(ms));
    if turns >= |recvs| {
      SmoothReader(turns, recvs, Frames(ms));
      if !SaysGoodbye(ms) { NoGoodbyeAtAll(ms); }
    }
  }

  // ---- The end of the connection ----

  lemma {:induction false} ReadingGoesThrough(recvs: seq<RecvOutcome>, more: seq<RecvOutcome>, available: nat, n: nat)
    requires Reading(recvs, available, n).ok
    ensures var r := Reading(recvs, available, n);
      Reading(recvs + more, available, n) == r.(recvs := r.recvs + more)
    decreases |recvs|
  {
    if n > 0 {
      var all := recvs + more;
      assert all[0] == recvs[0] && all[1..] == recvs[1..] + more;
      if recvs[0].Deliver? {
        var got := Min(Min(recvs[0].n, n), available);
        ReadingGoesThrough(recvs[1..], more, available - got, n - got);
      } else {
        ReadingGoesThrough(recvs[1..], more, available, n);
      }
    }
  }

  lemma BodyGoesThrough(recvs: seq<RecvOutcome>, more: seq<RecvOutcome>, available: nat, length: nat)
    requires length > 0 && ReadingBody(recvs, available, length).ok
    ensures var r := ReadingBody(recvs, available, length);
      ReadingBody(recvs + more, available, length) == r.(recvs := r.recvs + more)
  {
    var tag := Reading(recvs, available, 1);
    ReadingGoesThrough(recvs, more, available, 1);
    ReadingGoesThrough(tag.recvs, more, available - 1, length - 1);
  }

  /** What comes after the outcomes of a successful receive does not matter to it. */
  lemma ReceiveGoesThrough(recvs: seq<RecvOutcome>, more: seq<RecvOutcome>, stream: seq<Byte>)
    requires Receive(recvs, stream).ok
    ensures var r := Receive(recvs, stream);
      Receive(recvs + more, stream) == r.(recvs := r.recvs + more)
  {
    var head := Reading(recvs, |stream|, 4);
    ReadingGoesThrough(recvs, more, |stream|, 4);
    BodyGoesThrough(head.recvs, more, |stream| - 4, FromLe(stream[..4]));
  }

  lemma {:induction false} NothingMore(turns: nat)
    ensures ReaderRun(turns, [], []) == ReaderEnd([], false, [])
  {
    if turns > 0 {
      NothingMore(turns - 1);
    }
  }

  /** A receive on a stream with nothing left looks past interruptions and fails at the next outcome. */
  lemma ReceiveNothing(recvs: seq<RecvOutcome>)
    requires recvs != []
    ensures Receive(recvs, []) ==
      if recvs[0].PollInterrupted? || recvs[0].RecvInterrupted? then Receive(recvs[1..], [])
      else Reception(false, Closes(recvs[0]), 0, recvs[1..])
  {
  }

  lemma ReaderAgrees(turns: nat, a: seq<RecvOutcome>, b: seq<RecvOutcome>)
    requires Receive(a, []) == Receive(b, [])
    ensures ReaderRun(turns, a, []) == ReaderRun(turns, b, [])
  {
  }

  lemma ReaderFails(turns: nat, recvs: seq<RecvOutcome>, closed: bool, left: seq<RecvOutcome>)
    requires turns > 0 && Receive(recvs, []) == Reception(false, closed, 0, left)
    ensures ReaderRun(turns, recvs, []) == if closed then ReaderEnd([], true, []) else ReaderRun(turns - 1, left, [])
  {
  }

  /** The first of these outcomes is no progress; if it does not close the connection, it is also the last. */
  predicate Ends(end: seq<RecvOutcome>) {
    end != [] && !IsProgress(end[0]) && (Closes(end[0]) || |end| == 1)
  }

  lemma {:induction false} EndOnEmptyStream(turns: nat, recvs: seq<RecvOutcome>, end: seq<RecvOutcome>)
    requires (forall i :: 0 <= i < |recvs| ==> IsProgress(recvs[i])) && turns > |recvs| && Ends(end)
    ensures ReaderRun(turns, recvs + end, []) == ReaderEnd([], Closes(end[0]), [])
    decreases |recvs|
  {
    var all := recvs + end;
    ReceiveNothing(all);
    if recvs == [] {
      assert all == end;
      ReaderFails(turns, end, Closes(end[0]), end[1..]);
      NothingMore(turns - 1);
    } else {
      assert IsProgress(recvs[0]);
      assert all[1..] == recvs[1..] + end;
      if recvs[0].Deliver? {
        ReaderFails(turns, all, false, all[1..]);
        EndOnEmptyStream(turns - 1, recvs[1..], end);
      } else {
        ReaderAgrees(turns, all, all[1..]);
        EndOnEmptyStream(turns, recvs[1..], end);
      }
    }
  }

  /** While bytes keep flowing, a receive takes the first frame, and needs no outcome behind them. */
  lemma FirstFrameTaken(ms: seq<Message>, recvs: seq<RecvOutcome>, more: seq<RecvOutcome>)
    requires ms != [] && Receivable(ms[0]) && Smooth(recvs, |Frames(ms)|)
    ensures var r := Receive(recvs, Frames(ms));
      && r.ok && Receive(recvs + more, Frames(ms)) == r.(recvs := r.recvs + more)
      && Parse(Frames(ms)) == Got(ms[0], Frames(ms[1..])) && Frames(ms)[r.consumed..] == Frames(ms[1..])
      && Smooth(r.recvs, |Frames(ms[1..])|) && |r.recvs| < |recvs|
  {
    ParseFrame(ms[0], Frames(ms[1..]));
    SmoothReceive(recvs, Frames(ms));
    ReceiveGoesThrough(recvs, more, Frames(ms));
  }

  lemma ReaderTakesFirst(turns: nat, ms: seq<Message>, recvs: seq<RecvOutcome>, more: seq<RecvOutcome>)
    returns (left: seq<RecvOutcome>)
    requires turns > 0 && ms != [] && Receivable(ms[0]) && ms[0].tag != 4 && Smooth(recvs, |Frames(ms)|)
    ensures Smooth(left, |Frames(ms[1..])|) && |left| < |recvs|
    ensures var later := ReaderRun(turns - 1, left + more, Frames(ms[1..]));
      ReaderRun(turns, recvs + more, Frames(ms)) == later.(handled := [ms[0]] + later.handled)
  {
    FirstFrameTaken(ms, recvs, more);
    left := Receive(recvs, Frames(ms)).recvs;
  }

  /** Receivable messages, none of which says goodbye. */
  ghost predicate Ordinary(ms: seq<Message>) {
    forall i :: 0 <= i < |ms| ==> Receivable(ms[i]) && ms[i].tag != 4
  }

  lemma OrdinaryRest(ms: seq<Message>)
    requires Ordinary(ms) && ms != []
    ensures Receivable(ms[0]) && ms[0].tag != 4 && Ordinary(ms[1..]) && [ms[0]] + ms[1..] == ms
  {
  }

  /** The frames of receivable messages without a goodbye, in whatever pieces, and then the end: all messages
      are handled, and the reader stops exactly if the end is a hang-up or an end of file; after a
      deadline, a timeout or an error it would try again. */
  lemma {:induction false} EndAfterFrames(
    turns: nat, ms: seq<Message>, recvs: seq<RecvOutcome>, end: seq<RecvOutcome>)
    requires Ordinary(ms) && Smooth(recvs, |Frames(ms)|) && turns > |recvs| && Ends(end)
    ensures ReaderRun(turns, recvs + end, Frames(ms)) == ReaderEnd(ms, end[0].HungUp? || end[0].EndOfFile?, [])
    decreases |ms|
  {
    if ms == [] {
      EndOnEmptyStream(turns, recvs, end);
    } else {
      OrdinaryRest(ms);
      var left := ReaderTakesFirst(turns, ms, recvs, end);
      EndAfterFrames(turns - 1, ms[1..], left, end);
    }
  }

  class ControlPipe {
    /** Whether the descriptor is open. */
    var open: bool
    /** Bytes the kernel has accepted from us; bytes on their way to us. */
    var wire: seq<Byte>
    var incoming: seq<Byte>
    /** What the coming system calls will do. Calls past the end of a script fail. */
    var sends: seq<SendOutcome>
    var recvs: seq<RecvOutcome>

    constructor (incoming: seq<Byte>, sends: seq<SendOutcome>, recvs: seq<RecvOutcome>)
      ensures open && wire == [] && this.incoming == incoming && this.sends == sends && this.recvs == recvs
    {
      this.open, this.wire, this.incoming, this.sends, this.recvs := true, [], incoming, sends, recvs;
    }

    /** A `recv` that delivers up to `limit` of the `wanted` bytes. */
    method Accept(limit: nat, wanted: nat) returns (piece: seq<Byte>)
      modifies this`incoming
      ensures |piece| == Min(Min(limit, wanted), |old(incoming)|)
      ensures piece == old(incoming)[..|piece|] && incoming == old(incoming)[|piece|..]
    {
      var most := if limit < wanted then limit else wanted;
      var r := if most < |incoming| then most else |incoming|;
      piece := incoming[..r];
      incoming := incoming[r..];
    }

    /** One of the two write loops of `Send`. */
    method SendAll(data: seq<Byte>) returns (ok: bool)
      modifies this`wire, this`sends
      ensures ok ==> wire == old(wire) + data
      ensures !ok ==> exists k :: 0 <= k < |data| && wire == old(wire) + data[..k]
    {
      var sent := 0;
      while sent < |data|
        invariant sent <= |data| && wire == old(wire) + data[..sent]
        decreases |data| - sent, |sends|
      {
        if sends == [] {
          return false;
        }
        var outcome := sends[0];
        sends := sends[1..];
        match outcome {
          case SendInterrupted => continue;
          case SendFailed => return false;
          case Accept(n) =>
            var accepted := if n < |data| - sent then n else |data| - sent;
            assert data[..sent] + data[sent..sent + accepted] == data[..sent + accepted];
            wire := wire + data[sent..sent + accepted];
            sent := sent + accepted;
        }
      }
      assert data[..sent] == data;
      return true;
    }

    /** Header and payload, one after the other. */
    method SendBoth(header: seq<Byte>, data: seq<Byte>) returns (ok: bool)
      modifies this`wire, this`sends
      ensures ok ==> wire == old(wire) + (header + data)
      ensures !ok ==> exists k :: 0 <= k < |header + data| && wire == old(wire) + (header + data)[..k]
    {
      ok := SendAll(header);
      if !ok {
        ghost var k :| 0 <= k < |header| && wire == old(wire) + header[..k];
        assert header[..k] == (header + data)[..k];
        return false;
      }
      ok := SendAll(data);
      if ok {
        Reassociate(old(wire), header, data);
      } else {
        ghost var k :| 0 <= k < |data| && wire == old(wire) + header + data[..k];
        assert header + data[..k] == (header + data)[..|header| + k];
        Reassociate(old(wire), header, data[..k]);
        assert wire == old(wire) + (header + data)[..|header| + k];
      }
    }

    /** Partial sends and interruptions do not change the bytes: a successful send has put exactly the
        frame on the wire, a failed one a proper prefix of it. */
    method Send(tag: Byte, data: seq<Byte>) returns (ok: bool)
      modifies this`wire, this`sends
      ensures ok ==> open && |data| <= 0x10_0000 && wire == old(wire) + Frame(Message(tag, data))
      ensures !open || |data| > 0x10_0000 ==> !ok && wire == old(wire)
      ensures !ok && open && |data| <= 0x10_0000 ==>
        exists k :: 0 <= k < |Frame(Message(tag, data))| && wire == old(wire) + Frame(Message(tag, data))[..k]
    {
      if !open {
        return false;
      }
      if |data| > MAX_PAYLOAD {
        return false;
      }
      var header := AppendU32Le([], (|data| + 1) % WORD32);
      header := header + [tag];
      assert header == FrameHeader(|data|, tag);
      assert header + data == Frame(Message(tag, data));
      ok := SendBoth(header, data);
    }

    static function HalfTowardZero(x: int): int {
      if x >= 0 then x / 2 else -((-x) / 2)
    }

    /** The lossy variant: a single `send`, unless the probes of the kernel's send queue worked and
        found too little room. A failure leaves bytes on the wire only if that call took some but not
        all of the frame. */
    method TrySendNonBlocking(tag: Byte, data: seq<Byte>, probed: bool, inFlight: int, sndBuf: int)
      returns (ok: bool)
      modifies this`wire, this`sends
      ensures ok ==> open && |data| <= 0x10_0000 && wire == old(wire) + Frame(Message(tag, data))
      ensures !ok ==>
        exists k :: 0 <= k < |Frame(Message(tag, data))| && wire == old(wire) + Frame(Message(tag, data))[..k]
      ensures ok <==>
        && open && |data| <= 0x10_0000
        && !(probed && inFlight >= HalfTowardZero(sndBuf) - (5 + |data|))
        && old(sends) != [] && old(sends)[0].Accept? && old(sends)[0].n >= 5 + |data|
      ensures !ok && wire != old(wire) ==>
        old(sends) != [] && old(sends)[0].Accept? && 0 < old(sends)[0].n < 5 + |data|
    {
      ghost var frame := Frame(Message(tag, data));
      assert wire + frame[..0] == wire;
      if !open {
        return false;
      }
      if |data| > MAX_PAYLOAD {
        return false;
      }
      var total := 5 + |data|;
      if probed {
        var cap := HalfTowardZero(sndBuf);
        if inFlight >= cap - total {
          return false;
        }
      }
      var msg := AppendU32Le([], (|data| + 1) % WORD32);
      msg := msg + [tag];
      msg := msg + data;
      assert msg == frame;
      if sends == [] {
        return false;
      }
      var outcome := sends[0];
      sends := sends[1..];
      if !outcome.Accept? {
        return false;
      }
      var accepted := if outcome.n < total then outcome.n else total;
      wire := wire + msg[..accepted];
      assert frame[..total] == frame;
      return accepted == total;
    }

    /** One turn of that loop: it is over, or some more bytes, possibly none, have arrived. */
    method RecvTurn(wanted: nat) returns (over: bool, closed: bool, piece: seq<Byte>)
      requires open && wanted > 0
      modifies this`incoming, this`recvs
      ensures over ==>
        piece == [] && incoming == old(incoming) &&
        Reading(old(recvs), |old(incoming)|, wanted) == Reception(false, closed, 0, recvs)
      ensures !over ==> !closed && |recvs| < |old(recvs)| && |piece| <= wanted && old(incoming) == piece + incoming
      ensures !over ==>
        Reading(old(recvs), |old(incoming)|, wanted) == Later(Reading(recvs, |incoming|, wanted - |piece|), |piece|)
    {
      closed, piece := false, [];
      if recvs == [] {
        return true, false, [];
      }
      var outcome := recvs[0];
      recvs := recvs[1..];
      match outcome {
        case PollInterrupted => return false, false, [];
        case RecvInterrupted => return false, false, [];
        case HungUp => return true, true, [];
        case EndOfFile => return true, true, [];
        case Deliver(m) =>
          if m == 0 || incoming == [] {
            return true, false, [];
          }
          ReadingArrival(old(recvs), |incoming|, wanted);
          piece := Accept(m, wanted);
          return false, false, piece;
        case DeadlinePassed => return true, false, [];
        case PollFailed => return true, false, [];
        case PollTimedOut => return true, false, [];
        case RecvFailed => return true, false, [];
      }
    }

    /** The loop of `RecvAll`. */
    method RecvLoop(n: nat) returns (ok: bool, closed: bool, got: seq<Byte>)
      requires open
      modifies this`incoming, this`recvs
      ensures var r := Reading(old(recvs), |old(incoming)|, n);
        && ok == r.ok && closed == r.closed && recvs == r.recvs
        && got == old(incoming)[..r.consumed] && incoming == old(incoming)[r.consumed..]
    {
      closed, got := false, [];
      ghost var stream, rest, goal := incoming, Reading(recvs, |incoming|, n), Reading(recvs, |incoming|, n);
      while |got| < n
        invariant stream == got + incoming && |got| <= n
        invariant rest == Reading(recvs, |incoming|, n - |got|) && goal == Later(rest, |got|)
        decreases |recvs|
      {
        var wanted := n - |got|;
        var over, piece;
        over, closed, piece := RecvTurn(wanted);
        if over {
          Halves(got, incoming);
          return false, closed, got;
        }
        rest := Reading(recvs, |incoming|, wanted - |piece|);
        LaterTwice(rest, |piece|, |got|);
        Reassociate(got, piece, incoming);
        got := got + piece;
      }
      Halves(got, incoming);
      return true, false, got;
    }

    /** Reads exactly `n` bytes. On failure `got` holds the bytes already consumed; the caller drops them. */
    method RecvAll(n: nat) returns (ok: bool, closed: bool, got: seq<Byte>)
      modifies this`incoming, this`recvs
      ensures open ==>
        var r := Reading(old(recvs), |old(incoming)|, n);
        && ok == r.ok && closed == r.closed && recvs == r.recvs
        && got == old(incoming)[..r.consumed] && incoming == old(incoming)[r.consumed..]
      ensures !open ==> !ok && !closed && got == [] && recvs == old(recvs) && incoming == old(incoming)
      ensures open && Smooth(old(recvs), |old(incoming)|) ==>
        && !closed
        && (ok <==> n <= |old(incoming)|)
        && (if ok then Smooth(recvs, |incoming|) else incoming == [])
    {
      if !open {
        return false, false, [];
      }
      if Smooth(recvs, |incoming|) { SmoothReading(recvs, |incoming|, n); }
      ok, closed, got := RecvLoop(n);
    }

    /** The payload, if there is any. */
    method RecvPayload(n: nat) returns (ok: bool, closed: bool, payload: seq<Byte>)
      requires open
      modifies this`incoming, this`recvs
      ensures var r := Reading(old(recvs), |old(incoming)|, n);
        && ok == r.ok && closed == r.closed && recvs == r.recvs
        && payload == old(incoming)[..r.consumed] && incoming == old(incoming)[r.consumed..]
    {
      ok, closed, payload := true, false, [];
      if n > 0 {
        ok, closed, payload := RecvAll(n);
      }
    }

    /** Tag and payload of a frame whose length word has been read. */
    method RecvBody(length: nat) returns (ok: bool, closed: bool, m: Message)
      requires open && length > 0
      modifies this`incoming, this`recvs
      ensures var r := ReadingBody(old(recvs), |old(incoming)|, length);
        && ok == r.ok && closed == r.closed && recvs == r.recvs && incoming == old(incoming)[r.consumed..]
      ensures ok ==> m == Message(old(incoming)[0], old(incoming)[1..length])
    {
      m := Message(0, []);
      ghost var stream, script := incoming, recvs;
      var tagBuf, payload;
      ok, closed, tagBuf := RecvAll(1);
      if !ok {
        return;
      }
      assert tagBuf[0] == stream[0] && recvs == Reading(script, |stream|, 1).recvs;
      DropTwice(stream, 1, Reading(recvs, |stream| - 1, length - 1).consumed);
      ok, closed, payload := RecvPayload(length - 1);
      if ok {
        SliceOfDrop(stream, 1, 0, length - 1);
        m := Message(tagBuf[0], payload);
      }
    }

    /** The length word of a frame. */
    method RecvLength() returns (ok: bool, closed: bool, length: nat)
      requires open
      modifies this`incoming, this`recvs
      ensures var head := Reading(old(recvs), |old(incoming)|, 4);
        && ok == head.ok && closed == head.closed && recvs == head.recvs
        && incoming == old(incoming)[head.consumed..]
      ensures ok ==> |old(incoming)| >= 4 && length == FromLe(old(incoming)[..4])
    {
      length := 0;
      var lenBuf;
      ok, closed, lenBuf := RecvAll(4);
      if ok {
        length := ReadU32Le(lenBuf, 0);
        ReadU32LeIsValue(lenBuf, 0);
        assert lenBuf[0..4] == lenBuf;
      }
    }

    /** The part of `Recv` behind its check of the descriptor. */
    method RecvOpen() returns (ok: bool, closed: bool, m: Message)
      requires open
      modifies this`incoming, this`recvs
      ensures var r := Receive(old(recvs), old(incoming));
        && ok == r.ok && closed == r.closed && recvs == r.recvs && incoming == old(incoming)[r.consumed..]
      ensures ok ==> Parse(old(incoming)) == Got(m, incoming)
    {
      m := Message(0, []);
      ghost var stream := incoming;
      var length;
      ok, closed, length := RecvLength();
      if !ok {
        return;
      }
      if length == 0 || length > MAX_PAYLOAD {
        return false, false, m;
      }
      DropTwice(stream, 4, ReadingBody(recvs, |stream| - 4, length).consumed);
      ok, closed, m := RecvBody(length);
      ParseAtBody(stream, length);
    }

    /** One message, or what is left of the stream when that fails: `Receive` says how many bytes are gone
        in either case. On a smooth stream the outcome is exactly what `Parse` says. */
    method Recv() returns (ok: bool, closed: bool, m: Message)
      modifies this`incoming, this`recvs
      ensures open ==>
        var r := Receive(old(recvs), old(incoming));
        && ok == r.ok && closed == r.closed && recvs == r.recvs && incoming == old(incoming)[r.consumed..]
      ensures ok ==> Parse(old(incoming)) == Got(m, incoming)
      ensures !open ==> !ok && !closed && incoming == old(incoming) && recvs == old(recvs)
      ensures open && Smooth(old(recvs), |old(incoming)|) ==>
        && !closed
        && match Parse(old(incoming))
           case Got(m', rest) => ok && m == m' && incoming == rest && Smooth(recvs, |incoming|)
           case BadLength(rest) => !ok && incoming == rest && Smooth(recvs, |incoming|)
           case Incomplete => !ok && incoming == []
    {
      if !open {
        return false, false, Message(0, []);
      }
      if Smooth(recvs, |incoming|) { SmoothReceive(recvs, incoming); }
      ok, closed, m := RecvOpen();
    }

    /** The control reader's loop; it reads the stop flags before each turn, and finds one set after
        `turns` turns. On a closed descriptor every turn fails and nothing is handled. */
    method ReadMessages(turns: nat) returns (handled: seq<Message>, stopped: bool)
      modifies this`incoming, this`recvs
      ensures open ==> ReaderEnd(handled, stopped, incoming) == ReaderRun(turns, old(recvs), old(incoming))
      ensures !open ==> handled == [] && !stopped && incoming == old(incoming) && recvs == old(recvs)
    {
      handled, stopped := [], false;
      var left := turns;
      while left > 0
        invariant !stopped
        invariant open ==>
          var later := ReaderRun(left, recvs, incoming);
          ReaderRun(turns, old(recvs), old(incoming)) == later.(handled := handled + later.handled)
        invariant !open ==> handled == [] && incoming == old(incoming) && recvs == old(recvs)
      {
        left := left - 1;
        ghost var before := handled;
        var ok, closed, m := Recv();
        if !ok {
          if closed {
            return handled, true;
          }
          continue;
        }
        if m.tag == GOODBYE {
          return handled, true;
        }
        Reassociate(before, [m], ReaderRun(left, recvs, incoming).handled);
        handled := handled + [m];
      }
    }
  }
}
