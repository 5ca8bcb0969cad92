/** From the editor's `performEdit` through the bounded edit queue to the drain thread and its shutdown. */
module EditBridge {
  import opened Wrappers
  import opened Coalescing
  import opened PendingChanges

  const QUEUE_CAP: nat := 2048

  /** Where the GUI thread is inside `performEdit`. */
  datatype Gui = GuiIdle | PushingAudio(edit: Edit) | Enqueuing(edit: Edit) | Notifying

  /** Where the drain thread is. It holds the queue mutex while `FallingAsleep`: the wait predicate was
      false, and the thread is about to block on the condition variable. */
  datatype Drain = Testing | FallingAsleep | Asleep | Dispatching(edit: Edit) | Exited

  /** Where the destructor is. */
  datatype Closer = Open | StopStored | Joining | Joined

  datatype Popped = Overflowed(edit: Edit) | Taken(edit: Edit)

  /** The shared state, and what has happened: the edits made, those pushed to the audio side, those
      enqueued, those popped, those dispatched; those enqueued since the drain thread exited; and whether
      the destructor's notification fell into the drain thread's `FallingAsleep` gap. */
  datatype Bridge = Bridge(
    fires: Fires, queue: seq<Edit>, dropped: nat, gui: Gui, drain: Drain, closer: Closer,
    history: seq<TimedEdit>, audioPushed: seq<Edit>, enqueued: seq<Edit>, popped: seq<Popped>,
    dispatched: seq<Edit>, afterExit: seq<Edit>, missed: bool)

  datatype Event =
    | PerformEdit(edit: TimedEdit)
    | PushAudio
    | Enqueue
    | NotifyOne
    | Test
    | Sleep
    | SpuriousWake
    | Dispatch
    | Stop
    | NotifyAll
    | Join

  predicate Enabled(s: Bridge, e: Event) {
    match e
    case PerformEdit(_) => s.gui.GuiIdle?
    case PushAudio => s.gui.PushingAudio?
    case Enqueue => s.gui.Enqueuing? && !s.drain.FallingAsleep?
    case NotifyOne => s.gui.Notifying?
    case Test => s.drain.Testing?
    case Sleep => s.drain.FallingAsleep?
    case SpuriousWake => s.drain.Asleep?
    case Dispatch => s.drain.Dispatching?
    case Stop => s.closer.Open?
    case NotifyAll => s.closer.StopStored?
    case Join => s.closer.Joining? && s.drain.Exited?
  }

  function Woken(d: Drain): Drain {
    if d.Asleep? then Testing else d
  }

  function EnqueueStep(s: Bridge, edit: Edit): Bridge {
    var full := |s.queue| >= QUEUE_CAP;
    s.(gui := Notifying,
       queue := PushBounded(s.queue, QUEUE_CAP, edit),
       dropped := if full then s.dropped + 1 else s.dropped,
       popped := if full then s.popped + [Overflowed(s.queue[0])] else s.popped,
       enqueued := s.enqueued + [edit],
       afterExit := if s.drain.Exited? then s.afterExit + [edit] else s.afterExit)
  }

  function TestStep(s: Bridge): Bridge {
    if s.queue != [] then
      s.(drain := Dispatching(s.queue[0]), queue := s.queue[1..], popped := s.popped + [Taken(s.queue[0])])
    else if !s.closer.Open? then s.(drain := Exited)
    else s.(drain := FallingAsleep)
  }

  function Step(s: Bridge, e: Event): Bridge
    requires Enabled(s, e)
  {
    match e
    case PerformEdit(edit) =>
      s.(history := s.history + [edit],
         fires := Remember(s.fires, edit),
         gui := if Swallows(s.fires, edit) then GuiIdle else PushingAudio(edit.edit))
    case PushAudio => s.(gui := Enqueuing(s.gui.edit), audioPushed := s.audioPushed + [s.gui.edit])
    case Enqueue => EnqueueStep(s, s.gui.edit)
    case NotifyOne => s.(gui := GuiIdle, drain := Woken(s.drain))
    case Test => TestStep(s)
    case Sleep => s.(drain := Asleep)
    case SpuriousWake => s.(drain := Testing)
    case Dispatch => s.(drain := Testing, dispatched := s.dispatched + [s.drain.edit])
    case Stop => s.(closer := StopStored)
    case NotifyAll => s.(closer := Joining, drain := Woken(s.drain), missed := s.missed || s.drain.FallingAsleep?)
    case Join => s.(closer := Joined)
  }

  function Start(): Bridge {
    Bridge(map[], [], 0, GuiIdle, Testing, Open, [], [], [], [], [], [], false)
  }

  ghost predicate IsRun(s: Bridge, events: seq<Event>, s': Bridge)
    decreases |events|
  {
    if events == [] then s' == s
    else Enabled(s, events[0]) && IsRun(Step(s, events[0]), events[1..], s')
  }

  // ---- Conservation ----

  function EditsOf(popped: seq<Popped>): seq<Edit> {
    if popped == [] then []
    else EditsOf(popped[..|popped| - 1]) + [popped[|popped| - 1].edit]
  }

  function TakenOf(popped: seq<Popped>): seq<Edit> {
    if popped == [] then []
    else
      var k := |popped| - 1;
      TakenOf(popped[..k]) + if popped[k].Taken? then [popped[k].edit] else []
  }

  function Overflows(popped: seq<Popped>): nat {
    if popped == [] then 0
    else
      var k := |popped| - 1;
      Overflows(popped[..k]) + if popped[k].Overflowed? then 1 else 0
  }

  lemma PoppedGrows(popped: seq<Popped>, p: Popped)
    ensures EditsOf(popped + [p]) == EditsOf(popped) + [p.edit]
    ensures TakenOf(popped + [p]) == TakenOf(popped) + if p.Taken? then [p.edit] else []
    ensures Overflows(popped + [p]) == Overflows(popped) + if p.Overflowed? then 1 else 0
  {
    assert (popped + [p])[..|popped|] == popped;
  }

  /** Every edit the filter lets through reaches the audio side first and then the edit queue. */
  ghost predicate FilterInv(s: Bridge) {
    && s.fires == FiresAfter(s.history)
    && Survivors(s.history) == s.audioPushed + (if s.gui.PushingAudio? then [s.gui.edit] else [])
    && s.audioPushed == s.enqueued + (if s.gui.Enqueuing? then [s.gui.edit] else [])
  }

  /** Every enqueued edit is still queued or was popped: counted as dropped, or dispatched in order. */
  ghost predicate QueueInv(s: Bridge) {
    && s.enqueued == EditsOf(s.popped) + s.queue
    && |s.queue| <= QUEUE_CAP
    && s.dropped == Overflows(s.popped)
    && TakenOf(s.popped) == s.dispatched + (if s.drain.Dispatching? then [s.drain.edit] else [])
  }

  /** The drain thread sleeps over a queued edit only while its notification is still to come, and
      exits only after a stop and with nothing queued. */
  ghost predicate DrainInv(s: Bridge) {
    && (s.drain.FallingAsleep? ==> s.queue == [])
    && (s.drain.Asleep? && s.queue != [] ==> s.gui.Notifying?)
    && (s.drain.Exited? ==> !s.closer.Open? && s.queue == LastN(s.afterExit, QUEUE_CAP))
    && (!s.drain.Exited? ==> s.afterExit == [])
    && ((s.drain.Asleep? || s.drain.FallingAsleep?) && (s.closer.Joining? || s.closer.Joined?) ==> s.missed)
    && (s.closer.Joined? ==> s.drain.Exited?)
  }

  ghost predicate Inv(s: Bridge) {
    FilterInv(s) && QueueInv(s) && DrainInv(s)
  }

  lemma HistoryGrows(h: seq<TimedEdit>, edit: TimedEdit)
    ensures FiresAfter(h + [edit]) == Remember(FiresAfter(h), edit)
    ensures Survivors(h + [edit]) == Survivors(h) + if Swallows(FiresAfter(h), edit) then [] else [edit.edit]
  {
    var all := h + [edit];
    assert all[..|h|] == h && all[|h|] == edit;
    assert Forwarded(all, |h|) == !Swallows(FiresAfter(h), edit);
  }

  lemma EditKeeps(s: Bridge, edit: TimedEdit)
    requires Inv(s) && Enabled(s, PerformEdit(edit))
    ensures Inv(Step(s, PerformEdit(edit)))
  {
    HistoryGrows(s.history, edit);
  }

  lemma EnqueueConserves(enqueued: seq<Edit>, popped: seq<Popped>, queue: seq<Edit>, edit: Edit)
    requires enqueued == EditsOf(popped) + queue
    ensures if |queue| >= QUEUE_CAP
      then enqueued + [edit] == EditsOf(popped + [Overflowed(queue[0])]) + PushBounded(queue, QUEUE_CAP, edit)
      else enqueued + [edit] == EditsOf(popped) + PushBounded(queue, QUEUE_CAP, edit)
  {
    if |queue| >= QUEUE_CAP {
      PoppedGrows(popped, Overflowed(queue[0]));
    }
  }

  lemma EnqueueKeepsQueue(s: Bridge)
    requires Inv(s) && Enabled(s, Enqueue)
    ensures QueueInv(Step(s, Enqueue))
  {
    EnqueueConserves(s.enqueued, s.popped, s.queue, s.gui.edit);
    if |s.queue| >= QUEUE_CAP {
      PoppedGrows(s.popped, Overflowed(s.queue[0]));
    }
  }

  lemma EnqueueKeeps(s: Bridge)
    requires Inv(s) && Enabled(s, Enqueue)
    ensures Inv(Step(s, Enqueue))
  {
    EnqueueKeepsQueue(s);
    if s.drain.Exited? {
      PushKeepsLast(s.afterExit, QUEUE_CAP, s.gui.edit);
    }
  }

  lemma TakeConserves(enqueued: seq<Edit>, popped: seq<Popped>, queue: seq<Edit>)
    requires queue != [] && enqueued == EditsOf(popped) + queue
    ensures enqueued == EditsOf(popped + [Taken(queue[0])]) + queue[1..]
  {
    PoppedGrows(popped, Taken(queue[0]));
  }

  lemma TestKeeps(s: Bridge)
    requires Inv(s) && Enabled(s, Test)
    ensures Inv(Step(s, Test))
  {
    if s.queue != [] {
      TakeConserves(s.enqueued, s.popped, s.queue);
      PoppedGrows(s.popped, Taken(s.queue[0]));
    }
  }

  lemma StepKeeps(s: Bridge, e: Event)
    requires Inv(s) && Enabled(s, e)
    ensures Inv(Step(s, e))
  {
    match e
    case PerformEdit(edit) => EditKeeps(s, edit);
    case Enqueue => EnqueueKeeps(s);
    case Test => TestKeeps(s);
    case _ =>
  }

  lemma {:induction false} RunKeeps(s: Bridge, events: seq<Event>, s': Bridge)
    requires Inv(s) && IsRun(s, events, s')
    ensures Inv(s')
    decreases |events|
  {
    if events == [] {
    } else {
      StepKeeps(s, events[0]);
      RunKeeps(Step(s, events[0]), events[1..], s');
    }
  }

  /** Over every interleaving: what the filter let through is what was enqueued, but for at most one edit
      still inside `performEdit`, and the audio side has it first; what was enqueued is what was popped
      followed by the queue; what was popped is counted as dropped or dispatched, in order. */
  lemma EditsConserved(events: seq<Event>, s: Bridge)
    requires IsRun(Start(), events, s)
    ensures s.enqueued <= s.audioPushed <= Survivors(s.history) && |Survivors(s.history)| <= |s.enqueued| + 1
    ensures s.gui.GuiIdle? ==> s.enqueued == Survivors(s.history)
    ensures s.enqueued == EditsOf(s.popped) + s.queue && |s.queue| <= 2048
    ensures s.dropped == Overflows(s.popped)
    ensures TakenOf(s.popped) == s.dispatched + (if s.drain.Dispatching? then [s.drain.edit] else [])
  {
    RunKeeps(Start(), events, s);
  }

  /** The edits made in these events. */
  function Made(events: seq<Event>): seq<TimedEdit> {
    if events == [] then []
    else (if events[0].PerformEdit? then [events[0].edit] else []) + Made(events[1..])
  }

  lemma StepMakes(s: Bridge, e: Event)
    requires Enabled(s, e)
    ensures Step(s, e).history == s.history + if e.PerformEdit? then [e.edit] else []
  {
  }

  /** The history is what the editor did, edit by edit. */
  lemma {:induction false} HistoryIsMade(s: Bridge, events: seq<Event>, s': Bridge)
    requires IsRun(s, events, s')
    ensures s'.history == s.history + Made(events)
    decreases |events|
  {
    if events == [] {
    } else {
      StepMakes(s, events[0]);
      HistoryIsMade(Step(s, events[0]), events[1..], s');
      Reassociate(s.history, if events[0].PerformEdit? then [events[0].edit] else [], Made(events[1..]));
    }
  }

  /** An edit is given up only by an enqueue that finds 2048 others, and then it is the oldest. */
  lemma DropsOnlyFull(events: seq<Event>, s: Bridge, e: Event)
    requires IsRun(Start(), events, s) && Enabled(s, e)
    ensures Step(s, e).dropped == s.dropped + if e.Enqueue? && |s.queue| == 2048 then 1 else 0
    ensures e.Enqueue? ==> Step(s, e).queue == (if |s.queue| == 2048 then s.queue[1..] else s.queue) + [s.gui.edit]
  {
    RunKeeps(Start(), events, s);
  }

  /** A forwarded edit goes to the audio side and to the queue, wakes the drain thread, and returns. */
  lemma EditGoesThrough(s: Bridge, edit: TimedEdit) returns (s': Bridge)
    requires s.gui.GuiIdle? && !s.drain.FallingAsleep? && !Swallows(s.fires, edit)
    ensures IsRun(s, [PerformEdit(edit), PushAudio, Enqueue, NotifyOne], s')
    ensures s'.gui.GuiIdle? && !s'.drain.Asleep?
    ensures s'.audioPushed == s.audioPushed + [edit.edit] && s'.enqueued == s.enqueued + [edit.edit]
    ensures s'.queue == PushBounded(s.queue, 2048, edit.edit)
  {
    var s1 := Step(s, PerformEdit(edit));
    var s2 := Step(s1, PushAudio);
    var s3 := Step(s2, Enqueue);
    s' := Step(s3, NotifyOne);
    assert IsRun(s3, [NotifyOne], s') by { assert [NotifyOne][1..] == []; }
    assert IsRun(s2, [Enqueue, NotifyOne], s') by { assert [Enqueue, NotifyOne][1..] == [NotifyOne]; }
    assert IsRun(s1, [PushAudio, Enqueue, NotifyOne], s') by {
      assert [PushAudio, Enqueue, NotifyOne][1..] == [Enqueue, NotifyOne];
    }
    assert [PerformEdit(edit), PushAudio, Enqueue, NotifyOne][1..] == [PushAudio, Enqueue, NotifyOne];
  }

  lemma {:induction false} NothingOverflowed(popped: seq<Popped>)
    requires Overflows(popped) == 0
    ensures TakenOf(popped) == EditsOf(popped)
  {
    if popped == [] {
    } else {
      NothingOverflowed(popped[..|popped| - 1]);
    }
  }

  /** If no edit is enqueued after the drain thread has exited, it left nothing behind: every edit the
      filter let through was counted as dropped or dispatched. */
  lemma ExitLeavesNothing(events: seq<Event>, s: Bridge)
    requires IsRun(Start(), events, s) && s.drain.Exited? && s.gui.GuiIdle? && s.afterExit == []
    ensures s.queue == [] && Survivors(s.history) == EditsOf(s.popped)
    ensures s.dispatched == TakenOf(s.popped)
    ensures s.dropped == 0 ==> s.dispatched == Survivors(s.history)
  {
    RunKeeps(Start(), events, s);
    if s.dropped == 0 { NothingOverflowed(s.popped); }
  }

  // ---- Shutdown ----

  /** No edit is slept over: a sleeping drain thread with work queued has its notification coming. */
  lemma NoEditSleptOver(events: seq<Event>, s: Bridge)
    requires IsRun(Start(), events, s) && s.drain.Asleep? && s.queue != []
    ensures s.gui.Notifying? && Step(s, NotifyOne).drain.Testing?
  {
    RunKeeps(Start(), events, s);
  }

  /** Stopping is different: the destructor stores the flag and notifies without the queue mutex, so its
      notification can fall between the drain thread's test and its sleep. This run reaches that state. */
  lemma StopCanBeMissed() returns (events: seq<Event>, s: Bridge)
    ensures IsRun(Start(), events, s)
    ensures s.closer.Joining? && s.drain.Asleep? && s.gui.GuiIdle? && s.queue == []
  {
    var s1 := Step(Start(), Test);
    var s2 := Step(s1, Stop);
    var s3 := Step(s2, NotifyAll);
    s := Step(s3, Sleep);
    events := [Test, Stop, NotifyAll, Sleep];
    assert IsRun(s3, [Sleep], s) by { assert [Sleep][1..] == []; }
    assert IsRun(s2, [NotifyAll, Sleep], s) by { assert [NotifyAll, Sleep][1..] == [Sleep]; }
    assert IsRun(s1, [Stop, NotifyAll, Sleep], s) by { assert [Stop, NotifyAll, Sleep][1..] == [NotifyAll, Sleep]; }
    assert events[1..] == [Stop, NotifyAll, Sleep];
  }

  /** From there nothing can happen but a further edit or a spurious wake-up: the join never returns. */
  lemma MissedStopHangs(s: Bridge, e: Event)
    requires s.closer.Joining? && s.drain.Asleep? && s.gui.GuiIdle?
    ensures Enabled(s, e) <==> e.PerformEdit? || e.SpuriousWake?
  {
  }

  /** How many drain-thread steps a stopped bridge still needs. */
  function StepsToExit(s: Bridge): nat {
    2 * |s.queue| + match s.drain
                    case Testing => 1
                    case Dispatching(_) => 2
                    case FallingAsleep => 3
                    case Asleep => 2
                    case Exited => 0
  }

  /** What has been dispatched, then what is about to be. */
  function Outstanding(s: Bridge): seq<Edit> {
    s.dispatched + (if s.drain.Dispatching? then [s.drain.edit] else []) + s.queue
  }

  lemma DrainStepProgress(s: Bridge, e: Event)
    requires !s.closer.Open? && Enabled(s, e) && (e.Test? || e.Dispatch?)
    ensures var s' := Step(s, e);
      && StepsToExit(s') + 1 == StepsToExit(s)
      && Outstanding(s') == Outstanding(s)
      && s'.closer == s.closer && s'.missed == s.missed
      && !s'.drain.Asleep? && !s'.drain.FallingAsleep?
      && (s'.drain.Exited? ==> s'.queue == [] && s'.dispatched == Outstanding(s'))
  {
    if s.queue != [] {
      assert s.queue == [s.queue[0]] + s.queue[1..];
    }
  }

  ghost predicate DrainOnly(events: seq<Event>) {
    forall i :: 0 <= i < |events| ==> events[i].Test? || events[i].Dispatch?
  }

  lemma ExitedTakesNoStep(s: Bridge, events: seq<Event>, s': Bridge)
    requires s.drain.Exited? && IsRun(s, events, s') && DrainOnly(events)
    ensures events == [] && s' == s
  {
  }

  /** When the stop was not missed, the drain thread can take a step until it exits, needs exactly
      `StepsToExit` of them, and dispatches all that was queued, in order. */
  lemma {:induction false} ShutdownDrains(s: Bridge, events: seq<Event>, s': Bridge)
    requires s.closer.Joining? && !s.drain.Asleep? && !s.drain.FallingAsleep? && !s.drain.Exited?
    requires IsRun(s, events, s') && DrainOnly(events)
    ensures |events| + StepsToExit(s') == StepsToExit(s)
    ensures !s'.drain.Exited? ==> Enabled(s', Test) || Enabled(s', Dispatch)
    ensures s'.drain.Exited? ==> s'.dispatched == Outstanding(s)
    decreases |events|
  {
    if events == [] {
    } else {
      DrainStepProgress(s, events[0]);
      var next := Step(s, events[0]);
      if next.drain.Exited? {
        ExitedTakesNoStep(next, events[1..], s');
      } else {
        ShutdownDrains(next, events[1..], s');
      }
    }
  }

  // ---- When the join returns ----

  /** No new edit is made, and the drain thread is not woken without reason. */
  ghost predicate Quiet(events: seq<Event>) {
    forall i :: 0 <= i < |events| ==> !events[i].PerformEdit? && !events[i].SpuriousWake?
  }

  /** Some quiet run lets the destructor's join return. */
  ghost predicate CanJoin(s: Bridge) {
    exists events, s' :: IsRun(s, events, s') && Quiet(events) && s'.closer.Joined?
  }

  /** The drain thread sleeps, or is about to, and nobody is left to wake it. */
  predicate Stuck(s: Bridge) {
    s.closer.Joining? && s.gui.GuiIdle? && (s.drain.Asleep? || s.drain.FallingAsleep?)
  }

  lemma {:induction false} StuckStays(s: Bridge, events: seq<Event>, s': Bridge)
    requires Stuck(s) && IsRun(s, events, s') && Quiet(events)
    ensures Stuck(s')
    decreases |events|
  {
    if events != [] {
      StuckStays(Step(s, events[0]), events[1..], s');
    }
  }

  lemma JoinOneLater(s: Bridge, e: Event)
    requires Enabled(s, e) && !e.PerformEdit? && !e.SpuriousWake? && CanJoin(Step(s, e))
    ensures CanJoin(s)
  {
    var events, s' :| IsRun(Step(s, e), events, s') && Quiet(events) && s'.closer.Joined?;
    var all := [e] + events;
    assert all[1..] == events;
    assert IsRun(s, all, s');
  }

  function Sleepiness(s: Bridge): nat {
    if s.drain.FallingAsleep? then 2 else if s.drain.Asleep? then 1 else 0
  }

  function GuiStepsLeft(s: Bridge): nat {
    match s.gui
    case GuiIdle => 0
    case Notifying => 1
    case Enqueuing(_) => 2
    case PushingAudio(_) => 3
  }

  /** The next step on the way to the join: the drain thread's if it is awake, else that of the edit still
      under way, whose notification wakes it. */
  function NextToJoin(s: Bridge): Event {
    match s.drain
    case Exited => Join
    case Testing => Test
    case Dispatching(_) => Dispatch
    case FallingAsleep => Sleep
    case Asleep => if s.gui.PushingAudio? then PushAudio else if s.gui.Enqueuing? then Enqueue else NotifyOne
  }

  lemma {:induction false} UnstuckJoins(s: Bridge)
    requires s.closer.Joining? && !Stuck(s)
    ensures CanJoin(s)
    decreases Sleepiness(s), GuiStepsLeft(s), StepsToExit(s)
  {
    var e := NextToJoin(s);
    if s.drain.Exited? {
      assert IsRun(Step(s, e), [], Step(s, e));
    } else {
      if e.Test? || e.Dispatch? { DrainStepProgress(s, e); }
      UnstuckJoins(Step(s, e));
    }
    JoinOneLater(s, e);
  }

  /** A join can return exactly if the drain thread is awake or an edit is still under way. */
  lemma JoinsExactly(s: Bridge)
    requires s.closer.Joining?
    ensures CanJoin(s) <==> !Stuck(s)
  {
    if Stuck(s) {
      forall events, s' | IsRun(s, events, s') && Quiet(events) ensures !s'.closer.Joined? {
        StuckStays(s, events, s');
      }
    } else {
      UnstuckJoins(s);
    }
  }

  /** The destructor's notification in terms of the moment it falls into: the join can return exactly if
      the drain thread is not just falling asleep, or an edit under way will notify once more. */
  lemma StopHeardExactly(s: Bridge)
    requires s.closer.StopStored?
    ensures CanJoin(Step(s, NotifyAll)) <==> !s.drain.FallingAsleep? || !s.gui.GuiIdle?
  {
    JoinsExactly(Step(s, NotifyAll));
  }

  lemma {:induction false} JoinedStays(s: Bridge, events: seq<Event>, s': Bridge)
    requires s.closer.Joined? && IsRun(s, events, s')
    ensures s'.closer.Joined?
    decreases |events|
  {
    if events != [] {
      JoinedStays(Step(s, events[0]), events[1..], s');
    }
  }

  /** And once heard, the stop stays heard: whatever quiet steps are taken, the join can still return. */
  lemma {:induction false} HeardStaysHeard(s: Bridge, events: seq<Event>, s': Bridge)
    requires s.closer.Joining? && !s.drain.FallingAsleep? && !s.drain.Asleep?
    requires IsRun(s, events, s') && Quiet(events)
    ensures s'.closer.Joined? || CanJoin(s')
    decreases |events|
  {
    if events == [] {
      UnstuckJoins(s);
    } else if events[0].Join? {
      JoinedStays(Step(s, events[0]), events[1..], s');
    } else {
      HeardStaysHeard(Step(s, events[0]), events[1..], s');
    }
  }

  /** A join that cannot return is one whose drain thread sleeps, or is about to, with no edit under way;
      and in every run that is due to a notification that fell into the gap. */
  lemma HangsOnlyIfMissed(events: seq<Event>, s: Bridge)
    requires IsRun(Start(), events, s) && s.closer.Joining?
    ensures !CanJoin(s) <==> s.gui.GuiIdle? && (s.drain.Asleep? || s.drain.FallingAsleep?)
    ensures !CanJoin(s) ==> s.missed
    ensures !s.missed ==> !s.drain.Asleep? && !s.drain.FallingAsleep?
  {
    RunKeeps(Start(), events, s);
    JoinsExactly(s);
  }

  // ---- The object ----

  datatype DrainStep = Exit | Wait | Fire(edit: Edit)

  class HostComponentHandler {
    var lastFires: Fires
    var queue: seq<Edit>
    var droppedCount: nat
    var stopRequested: bool
    const audio: ActivePlugin?

    constructor (audio: ActivePlugin?)
      ensures lastFires == map[] && queue == [] && droppedCount == 0 && !stopRequested && this.audio == audio
    {
      lastFires, queue, droppedCount, stopRequested := map[], [], 0, false;
      this.audio := audio;
    }

    /** The first critical section: `forwarded` is false if the filter swallowed the edit. */
    method Coalesce(e: TimedEdit) returns (forwarded: bool)
      modifies `lastFires
      ensures forwarded == !Swallows(old(lastFires), e)
      ensures lastFires == Remember(old(lastFires), e)
    {
      var id := e.edit.id;
      if id in lastFires {
        var deltaNs := e.ns - lastFires[id].ns;
        var deltaVal := Abs(e.edit.value - lastFires[id].value);
        if deltaNs < WINDOW_NS && deltaVal < MEANINGFUL {
          lastFires := lastFires[id := lastFires[id].(value := e.edit.value)];
          return false;
        }
        lastFires := lastFires[id := FireRecord(e.ns, e.edit.value)];
      } else {
        lastFires := lastFires[id := FireRecord(e.ns, e.edit.value)];
      }
      return true;
    }

    /** The last critical section. */
    method EnqueueEdit(edit: Edit)
      modifies `queue, `droppedCount
      ensures queue == PushBounded(old(queue), 2048, edit)
      ensures droppedCount == old(droppedCount) + if |old(queue)| >= 2048 then 1 else 0
    {
      if |queue| >= QUEUE_CAP {
        queue := queue[1..];
        droppedCount := droppedCount + 1;
      }
      queue := queue + [edit];
    }

    method PerformEdit(e: TimedEdit)
      modifies `lastFires, `queue, `droppedCount, audio
      ensures lastFires == Remember(old(lastFires), e)
      ensures Swallows(old(lastFires), e) ==>
        queue == old(queue) && droppedCount == old(droppedCount) && (audio != null ==> unchanged(audio))
      ensures !Swallows(old(lastFires), e) ==>
        && queue == PushBounded(old(queue), 2048, e.edit)
        && droppedCount == old(droppedCount) + (if |old(queue)| >= 2048 then 1 else 0)
        && (audio != null ==> audio.pendingChanges == PushBounded(old(audio.pendingChanges), 256, e.edit))
    {
      var forwarded := Coalesce(e);
      if !forwarded {
        return;
      }
      if audio != null {
        audio.Push(e.edit);
      }
      EnqueueEdit(e.edit);
    }

    /** The drain thread's critical section: wait, exit, or take the oldest edit. */
    method PopFront() returns (step: DrainStep)
      modifies `queue
      ensures old(queue) != [] ==> step == Fire(old(queue)[0]) && queue == old(queue)[1..]
      ensures old(queue) == [] ==> queue == [] && step == if stopRequested then Exit else Wait
    {
      if queue == [] {
        return if stopRequested then Exit else Wait;
      }
      step := Fire(queue[0]);
      queue := queue[1..];
    }

    /** The drain loop once the stop flag is up and no more edits arrive: it returns, and the callback, if
        one is installed, has been called with everything queued, in order. */
    method DrainAfterStop(callbackInstalled: bool) returns (calls: seq<Edit>)
      requires stopRequested
      modifies `queue
      ensures queue == []
      ensures calls == if callbackInstalled then old(queue) else []
    {
      calls := [];
      ghost var taken: seq<Edit> := [];
      while true
        invariant taken + queue == old(queue)
        invariant calls == if callbackInstalled then taken else []
        decreases |queue|
      {
        var step := PopFront();
        if step.Exit? {
          return;
        }
        taken := taken + [step.edit];
        if callbackInstalled {
          calls := calls + [step.edit];
        }
      }
    }
  }
}
