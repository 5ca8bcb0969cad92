/** Several threads writing frames to one control socket under one mutex. */
module ControlWriters {
  import opened Wrappers
  import opened Codec
  import opened ControlPipe

  /** A message some thread wants to send, by `sendFrame` or by `trySendFrameLossy`. */
  datatype Item = Item(message: Message, lossy: bool)

  datatype Mutex = Free | Held(thread: nat, sent: nat)

  /** The bytes written so far, the mutex, and each thread's position in its own program. History:
      who sent what, in wire order, and per thread which of its messages were kept. */
  datatype Writers = Writers(
    wire: seq<Byte>, mutex: Mutex, position: seq<nat>,
    log: seq<(nat, Message)>, kept: seq<seq<bool>>)

  datatype Event =
    | Lock(thread: nat)
    | Write(n: nat)
    | Unlock
    | Lossy(thread: nat, taken: bool)
    | Refuse(thread: nat)

  ghost predicate Shaped(programs: seq<seq<Item>>, s: Writers) {
    && |s.position| == |s.kept| == |programs|
    && (forall t :: 0 <= t < |programs| ==> s.position[t] <= |programs[t]|)
    && (s.mutex.Held? ==> s.mutex.thread < |programs| && s.position[s.mutex.thread] < |programs[s.mutex.thread]|)
  }

  function Next(programs: seq<seq<Item>>, s: Writers, t: nat): Item
    requires t < |programs| && t < |s.position| && s.position[t] < |programs[t]|
  {
    programs[t][s.position[t]]
  }

  ghost predicate Enabled(programs: seq<seq<Item>>, s: Writers, e: Event) {
    && Shaped(programs, s)
    && match e
       case Lock(t) =>
         && s.mutex.Free? && t < |programs| && s.position[t] < |programs[t]|
         && !Next(programs, s, t).lossy && Sendable(Next(programs, s, t).message)
       case Write(n) =>
         s.mutex.Held? && s.mutex.sent + n <= |Frame(Next(programs, s, s.mutex.thread).message)|
       case Unlock =>
         s.mutex.Held? && s.mutex.sent == |Frame(Next(programs, s, s.mutex.thread).message)|
       case Lossy(t, taken) =>
         && s.mutex.Free? && t < |programs| && s.position[t] < |programs[t]|
         && Next(programs, s, t).lossy && Sendable(Next(programs, s, t).message)
       case Refuse(t) =>
         && s.mutex.Free? && t < |programs| && s.position[t] < |programs[t]|
         && !Sendable(Next(programs, s, t).message)
  }

  /** Thread `t` is done with its current message; it has gone out whole, or not at all. */
  function Advance(programs: seq<seq<Item>>, s: Writers, t: nat, sent: bool): Writers
    requires t < |programs| && t < |s.position| && t < |s.kept| && s.position[t] < |programs[t]|
  {
    s.(position := s.position[t := s.position[t] + 1],
       kept := s.kept[t := s.kept[t] + [sent]],
       log := if sent then s.log + [(t, Next(programs, s, t).message)] else s.log)
  }

  ghost function Step(programs: seq<seq<Item>>, s: Writers, e: Event): Writers
    requires Enabled(programs, s, e)
  {
    match e
    case Lock(t) => s.(mutex := Held(t, 0))
    case Write(n) =>
      var frame := Frame(Next(programs, s, s.mutex.thread).message);
      s.(wire := s.wire + frame[s.mutex.sent..s.mutex.sent + n], mutex := s.mutex.(sent := s.mutex.sent + n))
    case Unlock => Advance(programs, s, s.mutex.thread, true).(mutex := Free)
    case Lossy(t, taken) =>
      Advance(programs, s, t, taken).(
        wire := if taken then s.wire + Frame(Next(programs, s, t).message) else s.wire)
    case Refuse(t) => Advance(programs, s, t, false)
  }

  ghost function Start(programs: seq<seq<Item>>): Writers {
    Writers([], Free, seq(|programs|, _ => 0), [], seq(|programs|, _ => []))
  }

  ghost predicate IsRun(programs: seq<seq<Item>>, s: Writers, events: seq<Event>, s': Writers)
    decreases |events|
  {
    if events == [] then s' == s
    else Enabled(programs, s, events[0]) && IsRun(programs, Step(programs, s, events[0]), events[1..], s')
  }

  // ---- What a merge is ----

  function MessagesOf(log: seq<(nat, Message)>): (r: seq<Message>)
    ensures |r| == |log|
  {
    seq(|log|, i requires 0 <= i < |log| => log[i].1)
  }

  /** The part of the log that thread `t` contributed. */
  function ByThread(log: seq<(nat, Message)>, t: nat): seq<Message> {
    if log == [] then []
    else
      var k := |log| - 1;
      ByThread(log[..k], t) + if log[k].0 == t then [log[k].1] else []
  }

  /** The messages of a program that were kept. */
  function Keep(items: seq<Item>, kept: seq<bool>): seq<Message>
    requires |items| == |kept|
  {
    if items == [] then []
    else
      var k := |items| - 1;
      Keep(items[..k], kept[..k]) + if kept[k] then [items[k].message] else []
  }

  /** A message that may be absent: sent lossily, or too large to be sent at all. */
  predicate MayMiss(item: Item) {
    item.lossy || !Sendable(item.message)
  }

  ghost predicate ThreadInv(programs: seq<seq<Item>>, s: Writers, t: nat)
    requires Shaped(programs, s) && t < |programs|
  {
    && |s.kept[t]| == s.position[t]
    && ByThread(s.log, t) == Keep(programs[t][..s.position[t]], s.kept[t])
    && (forall i :: 0 <= i < |s.kept[t]| && !s.kept[t][i] ==> MayMiss(programs[t][i]))
  }

  /** The part of a frame the holder of the mutex has written. */
  ghost function Partial(programs: seq<seq<Item>>, s: Writers): seq<Byte>
    requires Shaped(programs, s)
    requires s.mutex.Held? ==> s.mutex.sent <= |Frame(Next(programs, s, s.mutex.thread).message)|
  {
    if s.mutex.Free? then [] else Frame(Next(programs, s, s.mutex.thread).message)[..s.mutex.sent]
  }

  ghost predicate Inv(programs: seq<seq<Item>>, s: Writers) {
    && Shaped(programs, s)
    && (s.mutex.Held? ==>
          s.mutex.sent <= |Frame(Next(programs, s, s.mutex.thread).message)| &&
          !MayMiss(Next(programs, s, s.mutex.thread)))
    && s.wire == Frames(MessagesOf(s.log)) + Partial(programs, s)
    && (forall t :: 0 <= t < |programs| ==> ThreadInv(programs, s, t))
    && (forall x :: x in s.log ==> Sendable(x.1))
  }

  lemma FramesSnoc(ms: seq<Message>, m: Message)
    ensures Frames(ms + [m]) == Frames(ms) + Frame(m)
  {
    FramesCompose(ms, [m]);
    assert [m][1..] == [] && Frames([m]) == Frame(m) + [];
  }

  lemma LogGrows(log: seq<(nat, Message)>, t: nat, m: Message, u: nat)
    ensures Frames(MessagesOf(log + [(t, m)])) == Frames(MessagesOf(log)) + Frame(m)
    ensures ByThread(log + [(t, m)], u) == ByThread(log, u) + if u == t then [m] else []
  {
    assert MessagesOf(log + [(t, m)]) == MessagesOf(log) + [m];
    FramesSnoc(MessagesOf(log), m);
    assert (log + [(t, m)])[..|log|] == log;
  }

  lemma KeepGrows(items: seq<Item>, n: nat, kept: seq<bool>, sent: bool)
    requires n < |items| && |kept| == n
    ensures Keep(items[..n + 1], kept + [sent]) ==
      Keep(items[..n], kept) + if sent then [items[n].message] else []
  {
    assert items[..n + 1][..n] == items[..n] && (kept + [sent])[..n] == kept;
  }

  lemma AdvanceKeepsOthers(programs: seq<seq<Item>>, s: Writers, t: nat, sent: bool, u: nat)
    requires Shaped(programs, s) && t < |programs| && u < |programs| && s.position[t] < |programs[t]|
    requires ThreadInv(programs, s, u) && u != t
    ensures var s' := Advance(programs, s, t, sent).(mutex := Free);
      Shaped(programs, s') && ThreadInv(programs, s', u)
  {
    LogGrows(s.log, t, Next(programs, s, t).message, u);
  }

  lemma MissesGrow(items: seq<Item>, kept: seq<bool>, sent: bool)
    requires |kept| < |items| && (sent || MayMiss(items[|kept|]))
    requires forall i :: 0 <= i < |kept| && !kept[i] ==> MayMiss(items[i])
    ensures forall i :: 0 <= i < |kept + [sent]| && !(kept + [sent])[i] ==> MayMiss(items[i])
  {
  }

  lemma AdvanceKeepsOwn(programs: seq<seq<Item>>, s: Writers, t: nat, sent: bool)
    requires Shaped(programs, s) && t < |programs| && s.position[t] < |programs[t]|
    requires ThreadInv(programs, s, t)
    requires sent || MayMiss(Next(programs, s, t))
    ensures var s' := Advance(programs, s, t, sent).(mutex := Free);
      Shaped(programs, s') && ThreadInv(programs, s', t)
  {
    var s' := Advance(programs, s, t, sent).(mutex := Free);
    var p, kept := s.position[t], s.kept[t];
    LogGrows(s.log, t, Next(programs, s, t).message, t);
    KeepGrows(programs[t], p, kept, sent);
    MissesGrow(programs[t], kept, sent);
    assert s'.position[t] == p + 1 && s'.kept[t] == kept + [sent];
  }

  lemma AdvanceKeeps(programs: seq<seq<Item>>, s: Writers, t: nat, sent: bool, u: nat)
    requires Shaped(programs, s) && t < |programs| && u < |programs| && s.position[t] < |programs[t]|
    requires ThreadInv(programs, s, t) && ThreadInv(programs, s, u)
    requires sent || MayMiss(Next(programs, s, t))
    ensures var s' := Advance(programs, s, t, sent).(mutex := Free);
      Shaped(programs, s') && ThreadInv(programs, s', u)
  {
    if u == t {
      AdvanceKeepsOwn(programs, s, t, sent);
    } else {
      AdvanceKeepsOthers(programs, s, t, sent, u);
    }
  }

  lemma LogStaysSendable(programs: seq<seq<Item>>, s: Writers, t: nat)
    requires Inv(programs, s) && t < |programs| && s.position[t] < |programs[t]|
    requires Sendable(Next(programs, s, t).message)
    ensures forall x :: x in s.log + [(t, Next(programs, s, t).message)] ==> Sendable(x.1)
  {
  }

  lemma LockKeeps(programs: seq<seq<Item>>, s: Writers, t: nat)
    requires Inv(programs, s) && Enabled(programs, s, Lock(t))
    ensures Inv(programs, Step(programs, s, Lock(t)))
  {
    var s' := Step(programs, s, Lock(t));
    forall u | 0 <= u < |programs| ensures ThreadInv(programs, s', u) {
      assert ThreadInv(programs, s, u);
    }
  }

  lemma PieceExtends(before: seq<Byte>, frame: seq<Byte>, k: nat, n: nat)
    requires k + n <= |frame|
    ensures before + frame[..k] + frame[k..k + n] == before + frame[..k + n]
  {
    assert frame[..k] + frame[k..k + n] == frame[..k + n];
    Reassociate(before, frame[..k], frame[k..k + n]);
  }

  lemma WriteKeeps(programs: seq<seq<Item>>, s: Writers, n: nat)
    requires Inv(programs, s) && Enabled(programs, s, Write(n))
    ensures Inv(programs, Step(programs, s, Write(n)))
  {
    var s' := Step(programs, s, Write(n));
    PieceExtends(Frames(MessagesOf(s.log)), Frame(Next(programs, s, s.mutex.thread).message), s.mutex.sent, n);
    forall u | 0 <= u < |programs| ensures ThreadInv(programs, s', u) {
      assert ThreadInv(programs, s, u);
    }
  }

  /** A message that has gone out whole, by either kind of send. */
  lemma CompletedKeeps(programs: seq<seq<Item>>, s: Writers, t: nat, wire: seq<Byte>)
    requires Inv(programs, s) && t < |programs| && s.position[t] < |programs[t]|
    requires Sendable(Next(programs, s, t).message)
    requires wire == Frames(MessagesOf(s.log)) + Frame(Next(programs, s, t).message)
    ensures Inv(programs, Advance(programs, s, t, true).(mutex := Free, wire := wire))
  {
    var s' := Advance(programs, s, t, true).(mutex := Free, wire := wire);
    LogGrows(s.log, t, Next(programs, s, t).message, t);
    LogStaysSendable(programs, s, t);
    forall u | 0 <= u < |programs| ensures Shaped(programs, s') && ThreadInv(programs, s', u) {
      AdvanceKeeps(programs, s, t, true, u);
    }
    AdvanceKeeps(programs, s, t, true, t);
    assert wire == Frames(MessagesOf(s'.log)) + [];
  }

  lemma UnlockKeeps(programs: seq<seq<Item>>, s: Writers)
    requires Inv(programs, s) && Enabled(programs, s, Unlock)
    ensures Inv(programs, Step(programs, s, Unlock))
  {
    var m := Next(programs, s, s.mutex.thread).message;
    assert Frame(m)[..|Frame(m)|] == Frame(m);
    CompletedKeeps(programs, s, s.mutex.thread, s.wire);
  }

  lemma LossyTakenKeeps(programs: seq<seq<Item>>, s: Writers, t: nat)
    requires Inv(programs, s) && Enabled(programs, s, Lossy(t, true))
    ensures Inv(programs, Step(programs, s, Lossy(t, true)))
  {
    assert s.wire == Frames(MessagesOf(s.log));
    CompletedKeeps(programs, s, t, s.wire + Frame(Next(programs, s, t).message));
  }

  /** A message that is dropped or refused leaves no trace on the wire. */
  lemma AbsentKeeps(programs: seq<seq<Item>>, s: Writers, t: nat)
    requires Inv(programs, s) && s.mutex.Free? && t < |programs| && s.position[t] < |programs[t]|
    requires MayMiss(Next(programs, s, t))
    ensures Inv(programs, Advance(programs, s, t, false))
  {
    var s' := Advance(programs, s, t, false);
    forall u | 0 <= u < |programs| ensures ThreadInv(programs, s', u) {
      AdvanceKeeps(programs, s, t, false, u);
    }
  }

  lemma StepKeeps(programs: seq<seq<Item>>, s: Writers, e: Event)
    requires Inv(programs, s) && Enabled(programs, s, e)
    ensures Inv(programs, Step(programs, s, e))
  {
    match e
    case Lock(t) => LockKeeps(programs, s, t);
    case Write(n) => WriteKeeps(programs, s, n);
    case Unlock => UnlockKeeps(programs, s);
    case Lossy(t, taken) => if taken { LossyTakenKeeps(programs, s, t); } else { AbsentKeeps(programs, s, t); }
    case Refuse(t) => AbsentKeeps(programs, s, t);
  }

  lemma {:induction false} RunKeeps(programs: seq<seq<Item>>, s: Writers, events: seq<Event>, s': Writers)
    requires Inv(programs, s) && IsRun(programs, s, events, s')
    ensures Inv(programs, s')
    decreases |events|
  {
    if events == [] {
    } else {
      StepKeeps(programs, s, events[0]);
      RunKeeps(programs, Step(programs, s, events[0]), events[1..], s');
    }
  }

  // ---- The theorem ----

  /** A truncated frame swallows what follows it, until its announced length is filled. */
  lemma TruncatedFrameSwallows(m: Message, k: nat, more: seq<Byte>)
    requires Receivable(m) && k + |more| < |Frame(m)| && (k < 4 ==> more == [])
    ensures Session(Frame(m)[..k] + more) == ([], Frame(m)[..k] + more)
  {
    var s := Frame(m)[..k] + more;
    FrameLength(m);
    if k >= 4 {
      assert s[..4] == Frame(m)[..4];
      ParseAtBody(s, |m.payload| + 1);
    }
    assert Parse(s) == Incomplete;
  }

  lemma ProperPrefixIncomplete(m: Message, k: nat)
    requires Receivable(m) && k < |Frame(m)|
    ensures Session(Frame(m)[..k]) == ([], Frame(m)[..k])
  {
    TruncatedFrameSwallows(m, k, []);
    assert Frame(m)[..k] + [] == Frame(m)[..k];
  }

  /** The unlogged message whose frame is completely on the wire, if the mutex holder is about to unlock. */
  ghost function Unlogged(programs: seq<seq<Item>>, s: Writers): seq<Message>
    requires Shaped(programs, s)
  {
    if s.mutex.Held? && s.mutex.sent == |Frame(Next(programs, s, s.mutex.thread).message)|
    then [Next(programs, s, s.mutex.thread).message] else []
  }

  /** No message is under way that the receiver would reject. */
  ghost predicate HeldReceivable(programs: seq<seq<Item>>, s: Writers)
    requires Shaped(programs, s)
  {
    s.mutex.Held? ==> Receivable(Next(programs, s, s.mutex.thread).message)
  }

  lemma PartialHeard(programs: seq<seq<Item>>, s: Writers)
    requires Inv(programs, s) && HeldReceivable(programs, s)
    ensures Session(Partial(programs, s)).0 == AllDelivered(Unlogged(programs, s))
    ensures s.mutex.Free? ==> Session(Partial(programs, s)).1 == []
  {
    if s.mutex.Held? {
      var m := Next(programs, s, s.mutex.thread).message;
      if s.mutex.sent < |Frame(m)| {
        ProperPrefixIncomplete(m, s.mutex.sent);
      } else {
        var none: seq<Byte> := [];
        assert Frame(m)[..s.mutex.sent] == Frame(m) + none;
        SessionTakesFrame(m, none);
        assert Session(none).0 == [];
        assert AllDelivered([m]) == [Delivered(m)];
      }
    }
  }

  ghost predicate AllReceivable(ms: seq<Message>) {
    forall i :: 0 <= i < |ms| ==> Receivable(ms[i])
  }

  lemma LoggedSendable(log: seq<(nat, Message)>)
    requires forall x :: x in log ==> Sendable(x.1)
    ensures forall i :: 0 <= i < |MessagesOf(log)| ==> Sendable(MessagesOf(log)[i])
  {
    forall i | 0 <= i < |log| ensures Sendable(MessagesOf(log)[i]) {
      assert log[i] in log;
    }
  }

  lemma AllDeliveredJoin(a: seq<Message>, b: seq<Message>)
    ensures AllDelivered(a) + AllDelivered(b) == AllDelivered(a + b)
  {
  }

  lemma StartInv(programs: seq<seq<Item>>)
    ensures Inv(programs, Start(programs))
  {
    forall t | 0 <= t < |programs| ensures ThreadInv(programs, Start(programs), t) {
      assert programs[t][..0] == [];
    }
  }

  /** In every interleaving the wire holds a merge of the threads' messages, each thread's own in its own
      order, with blocking ones all there, lossy ones whole or absent, and those too large to be sent
      absent. Between messages the receiver gets exactly that merge, with no byte left, exactly if
      every message of it is receivable; and then, in the middle of a message that is receivable too, it
      gets the merge followed by that message once its frame is complete. */
  lemma WireIsAMerge(programs: seq<seq<Item>>, events: seq<Event>, s: Writers)
    requires IsRun(programs, Start(programs), events, s)
    ensures Shaped(programs, s)
    ensures forall t :: 0 <= t < |programs| ==> ThreadInv(programs, s, t)
    ensures s.mutex.Free? ==>
      (Session(s.wire) == (AllDelivered(MessagesOf(s.log)), []) <==> AllReceivable(MessagesOf(s.log)))
    ensures AllReceivable(MessagesOf(s.log)) && HeldReceivable(programs, s) ==>
      Session(s.wire).0 == AllDelivered(MessagesOf(s.log) + Unlogged(programs, s))
  {
    StartInv(programs);
    RunKeeps(programs, Start(programs), events, s);
    var ms := MessagesOf(s.log);
    LoggedSendable(s.log);
    if s.mutex.Free? {
      assert s.wire == Frames(ms) + [];
      assert s.wire == Frames(ms);
      RoundTripExactly(ms);
    }
    if AllReceivable(ms) && HeldReceivable(programs, s) {
      SmallMessagesRoundTrip(ms, Partial(programs, s));
      PartialHeard(programs, s);
      AllDeliveredJoin(ms, Unlogged(programs, s));
    }
  }

  // ---- Every message can be settled ----

  function Sum(ns: seq<nat>): nat {
    if ns == [] then 0 else ns[0] + Sum(ns[1..])
  }

  function WriteEvents(ns: seq<nat>): (r: seq<Event>)
    ensures |r| == |ns|
  {
    if ns == [] then [] else [Write(ns[0])] + WriteEvents(ns[1..])
  }

  lemma {:induction false} RunsJoin(
    programs: seq<seq<Item>>, s: Writers, a: seq<Event>, s1: Writers, b: seq<Event>, s2: Writers)
    requires IsRun(programs, s, a, s1) && IsRun(programs, s1, b, s2)
    ensures IsRun(programs, s, a + b, s2)
    decreases |a|
  {
    if a == [] {
      assert a + b == b;
    } else {
      assert (a + b)[0] == a[0] && (a + b)[1..] == a[1..] + b;
      RunsJoin(programs, Step(programs, s, a[0]), a[1..], s1, b, s2);
    }
  }

  lemma OneStepRun(programs: seq<seq<Item>>, s: Writers, e: Event)
    requires Enabled(programs, s, e)
    ensures IsRun(programs, s, [e], Step(programs, s, e))
  {
    assert [e][1..] == [];
  }

  lemma PiecesJoin(wire: seq<Byte>, frame: seq<Byte>, k: nat, a: nat, b: nat)
    requires k + a + b <= |frame|
    ensures wire + frame[k..k + a] + frame[k + a..k + a + b] == wire + frame[k..k + a + b]
  {
    assert frame[k..k + a] + frame[k + a..k + a + b] == frame[k..k + a + b];
    Reassociate(wire, frame[k..k + a], frame[k + a..k + a + b]);
  }

  /** Where the writes of the mutex holder have got to when it has written `n` bytes more. */
  ghost function Written(programs: seq<seq<Item>>, s: Writers, n: nat): Writers
    requires Shaped(programs, s) && s.mutex.Held?
    requires s.mutex.sent + n <= |Frame(Next(programs, s, s.mutex.thread).message)|
  {
    var frame, k := Frame(Next(programs, s, s.mutex.thread).message), s.mutex.sent;
    s.(wire := s.wire + frame[k..k + n], mutex := Held(s.mutex.thread, k + n))
  }

  lemma OneWrite(programs: seq<seq<Item>>, s: Writers, n: nat)
    requires Shaped(programs, s) && s.mutex.Held?
    requires s.mutex.sent + n <= |Frame(Next(programs, s, s.mutex.thread).message)|
    ensures Enabled(programs, s, Write(n)) && Step(programs, s, Write(n)) == Written(programs, s, n)
    ensures Shaped(programs, Written(programs, s, n))
  {
  }

  lemma WrittenTwice(programs: seq<seq<Item>>, s: Writers, a: nat, b: nat)
    requires Shaped(programs, s) && s.mutex.Held?
    requires s.mutex.sent + a + b <= |Frame(Next(programs, s, s.mutex.thread).message)|
    ensures Shaped(programs, Written(programs, s, a))
    ensures Written(programs, Written(programs, s, a), b) == Written(programs, s, a + b)
  {
    PiecesJoin(s.wire, Frame(Next(programs, s, s.mutex.thread).message), s.mutex.sent, a, b);
  }

  lemma WrittenNothing(programs: seq<seq<Item>>, s: Writers)
    requires Shaped(programs, s) && s.mutex.Held?
    requires s.mutex.sent <= |Frame(Next(programs, s, s.mutex.thread).message)|
    ensures Written(programs, s, 0) == s
  {
    assert s.wire + [] == s.wire;
  }

  /** The holder of the mutex may write its frame in any pieces. */
  lemma {:induction false} WritesThrough(programs: seq<seq<Item>>, s: Writers, ns: seq<nat>)
    requires Shaped(programs, s) && s.mutex.Held?
    requires s.mutex.sent + Sum(ns) <= |Frame(Next(programs, s, s.mutex.thread).message)|
    ensures IsRun(programs, s, WriteEvents(ns), Written(programs, s, Sum(ns)))
    decreases |ns|
  {
    if ns == [] {
      WrittenNothing(programs, s);
    } else {
      OneWrite(programs, s, ns[0]);
      WritesThrough(programs, Written(programs, s, ns[0]), ns[1..]);
      WrittenTwice(programs, s, ns[0], Sum(ns[1..]));
      assert WriteEvents(ns)[0] == Write(ns[0]) && WriteEvents(ns)[1..] == WriteEvents(ns[1..]);
    }
  }

  /** Thread `t` is done with its next message `m`, which is on the wire as a whole or not at all. */
  ghost predicate Settled(programs: seq<seq<Item>>, s: Writers, t: nat, sent: bool, s': Writers)
    requires t < |programs| && t < |s.position| && t < |s.kept| && s.position[t] < |programs[t]|
  {
    var m := programs[t][s.position[t]].message;
    && s'.wire == s.wire + (if sent then Frame(m) else [])
    && s'.log == s.log + (if sent then [(t, m)] else [])
    && s'.position == s.position[t := s.position[t] + 1] && s'.kept == s.kept[t := s.kept[t] + [sent]]
    && s'.mutex.Free?
  }

  /** A blocking send goes through in whatever pieces the kernel takes the frame. */
  lemma BlockingSendSettles(programs: seq<seq<Item>>, s: Writers, t: nat, ns: seq<nat>) returns (s': Writers)
    requires Shaped(programs, s) && s.mutex.Free? && t < |programs| && s.position[t] < |programs[t]|
    requires var item := programs[t][s.position[t]];
      !item.lossy && Sendable(item.message) && Sum(ns) == |Frame(item.message)|
    ensures IsRun(programs, s, [Lock(t)] + WriteEvents(ns) + [Unlock], s')
    ensures Settled(programs, s, t, true, s')
  {
    var frame := Frame(programs[t][s.position[t]].message);
    var locked := Step(programs, s, Lock(t));
    WritesThrough(programs, locked, ns);
    var written := Written(programs, locked, |frame|);
    assert frame[0..|frame|] == frame;
    s' := Step(programs, written, Unlock);
    OneStepRun(programs, s, Lock(t));
    RunsJoin(programs, s, [Lock(t)], locked, WriteEvents(ns), written);
    OneStepRun(programs, written, Unlock);
    RunsJoin(programs, s, [Lock(t)] + WriteEvents(ns), written, [Unlock], s');
  }

  /** A lossy send is over at once, taken or not; a message that is too large is refused. */
  lemma OtherSendSettles(programs: seq<seq<Item>>, s: Writers, t: nat, taken: bool)
    requires Shaped(programs, s) && s.mutex.Free? && t < |programs| && s.position[t] < |programs[t]|
    requires var item := programs[t][s.position[t]];
      if Sendable(item.message) then item.lossy else !taken
    ensures var e := if Sendable(programs[t][s.position[t]].message) then Lossy(t, taken) else Refuse(t);
      Enabled(programs, s, e) && Settled(programs, s, t, taken, Step(programs, s, e))
  {
  }

  /** The assumption on lossy sends is needed, exactly: if the kernel takes the first `k` bytes of a lossy
      frame, everything else that was sent is delivered, and nothing is left over, only if it took none.
      If it takes the length word and what follows fits into the missing part, all of that is silenced. */
  lemma PartialLossySendSilencesTheNext(ms: seq<Message>, a: Message, k: nat, more: seq<Message>)
    requires (forall m :: m in ms || m in more ==> Receivable(m)) && Receivable(a) && k <= |Frame(a)|
    ensures var wire := Frames(ms) + (Frame(a)[..k] + Frames(more));
      && (Session(wire) == (AllDelivered(ms + more), []) <==> k == 0)
      && (4 <= k && k + |Frames(more)| < |Frame(a)| ==> Session(wire).0 == AllDelivered(ms))
  {
    var tail := Frame(a)[..k] + Frames(more);
    FramesCompose(ms, more);
    if k == 0 {
      assert tail == Frames(more);
      AllSmallDelivered(ms + more);
    } else {
      SessionAccounts(Frames(ms) + tail);
      FramesAccount(ms + more);
    }
    if 4 <= k && k + |Frames(more)| < |Frame(a)| {
      SmallMessagesRoundTrip(ms, tail);
      TruncatedFrameSwallows(a, k, Frames(more));
    }
  }
}
