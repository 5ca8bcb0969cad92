/** The GUI thread's timer list, whose handlers may register and unregister timers while they are called. */
module TimerWheel {
  import opened Wrappers
  import Bits

  const NO_TIMERS: nat := Bits.WORD64 - 1

  /** The millisecond clock and the deadlines are 64-bit words: a deadline past the end wraps. */
  function AddMs(now: nat, interval: nat): (r: nat)
    ensures r < Bits.WORD64
  {
    (now + interval) % Bits.WORD64
  }

  /** A timer entry. `serial` names the entry in the statements below; no decision reads it. */
  datatype Timer = Timer(handler: nat, interval: nat, next: nat, serial: nat)

  /** The entry `serial` was found due by the scan at `at`. */
  datatype Firing = Firing(serial: nat, interval: nat, at: nat)

  /** `handler` was called while `registered` were the entries. */
  datatype Call = Call(handler: nat, registered: seq<Timer>)

  /** The entries, the last reading of the monotone clock, and what has happened; `wrapped` remembers
      whether some deadline did not fit the word. */
  datatype Wheel = Wheel(
    timers: seq<Timer>, clock: nat, serials: nat, fired: seq<Firing>, calls: seq<Call>, wrapped: bool)

  /** What a caller may do; `elapsed` is the time since the last reading of the clock. Handler 0 is null. */
  datatype Action =
    | Register(handler: nat, interval: nat, elapsed: nat)
    | Unregister(handler: nat)

  datatype Status = ResultTrue | ResultFalse | InvalidArgument

  function Without(timers: seq<Timer>, handler: nat): (r: seq<Timer>)
    ensures |r| <= |timers|
  {
    if timers == [] then []
    else
      var k := |timers| - 1;
      Without(timers[..k], handler) + if timers[k].handler == handler then [] else [timers[k]]
  }

  predicate Registered(timers: seq<Timer>, handler: nat) {
    exists i :: 0 <= i < |timers| && timers[i].handler == handler
  }

  /** A refused registration reads no clock. */
  function Perform(w: Wheel, a: Action): Wheel {
    match a
    case Register(handler, interval, elapsed) =>
      if handler == 0 || interval == 0 then w
      else
        var now := w.clock + elapsed;
        w.(timers := w.timers + [Timer(handler, interval, AddMs(now, interval), w.serials)],
           serials := w.serials + 1, clock := now, wrapped := w.wrapped || now + interval >= Bits.WORD64)
    case Unregister(handler) => if handler == 0 then w else w.(timers := Without(w.timers, handler))
  }

  function PerformAll(w: Wheel, actions: seq<Action>): Wheel {
    if actions == [] then w
    else Perform(PerformAll(w, actions[..|actions| - 1]), actions[|actions| - 1])
  }

  // ---- One scan ----

  function Refreshed(timers: seq<Timer>, now: nat): (r: seq<Timer>)
    ensures |r| == |timers|
  {
    seq(|timers|, i requires 0 <= i < |timers| =>
      if timers[i].next <= now then timers[i].(next := AddMs(now, timers[i].interval)) else timers[i])
  }

  /** The handlers of the due entries, in order; an entry per due timer. */
  function Due(timers: seq<Timer>, now: nat): seq<nat> {
    if timers == [] then []
    else
      var k := |timers| - 1;
      Due(timers[..k], now) + if timers[k].next <= now then [timers[k].handler] else []
  }

  function Firings(timers: seq<Timer>, now: nat): seq<Firing> {
    if timers == [] then []
    else
      var k := |timers| - 1;
      Firings(timers[..k], now) +
        if timers[k].next <= now then [Firing(timers[k].serial, timers[k].interval, now)] else []
  }

  function ScriptOf(scripts: seq<seq<Action>>, k: nat): seq<Action> {
    if k < |scripts| then scripts[k] else []
  }

  /** One turn: the handler is called if it is still registered, and then does as it likes. */
  function Turn(w: Wheel, handler: nat, script: seq<Action>): Wheel {
    if Registered(w.timers, handler)
    then PerformAll(w.(calls := w.calls + [Call(handler, w.timers)]), script)
    else w
  }

  function Turns(w: Wheel, toFire: seq<nat>, scripts: seq<seq<Action>>): Wheel {
    if toFire == [] then w
    else
      var k := |toFire| - 1;
      Turn(Turns(w, toFire[..k], scripts), toFire[k], ScriptOf(scripts, k))
  }

  predicate RefreshWraps(timers: seq<Timer>, now: nat) {
    exists i :: 0 <= i < |timers| && timers[i].next <= now && now + timers[i].interval >= Bits.WORD64
  }

  function Refresh(w: Wheel, elapsed: nat): Wheel {
    var now := w.clock + elapsed;
    w.(timers := Refreshed(w.timers, now), clock := now, fired := w.fired + Firings(w.timers, now),
       wrapped := w.wrapped || RefreshWraps(w.timers, now))
  }

  function AfterTurns(w: Wheel, elapsed: nat, scripts: seq<seq<Action>>): Wheel {
    if w.timers == [] then w
    else Turns(Refresh(w, elapsed), Due(w.timers, w.clock + elapsed), scripts)
  }

  function Soonest(timers: seq<Timer>): nat {
    if timers == [] then NO_TIMERS
    else
      var k := |timers| - 1;
      var best := Soonest(timers[..k]);
      if timers[k].next < best then timers[k].next else best
  }

  /** The scan; the clock is read again only if entries remain. */
  function Scanned(w: Wheel, elapsed: nat, scripts: seq<seq<Action>>, elapsed2: nat): (Wheel, nat) {
    var w' := AfterTurns(w, elapsed, scripts);
    if w'.timers == [] then (w', NO_TIMERS)
    else
      var now2 := w'.clock + elapsed2;
      (w'.(clock := now2), if Soonest(w'.timers) <= now2 then 0 else Soonest(w'.timers) - now2)
  }

  datatype Op =
    | Do(action: Action)
    | Scan(elapsed: nat, scripts: seq<seq<Action>>, elapsed2: nat)

  function Apply(w: Wheel, op: Op): Wheel {
    match op
    case Do(a) => Perform(w, a)
    case Scan(elapsed, scripts, elapsed2) => Scanned(w, elapsed, scripts, elapsed2).0
  }

  function ApplyAll(w: Wheel, ops: seq<Op>): Wheel {
    if ops == [] then w else Apply(ApplyAll(w, ops[..|ops| - 1]), ops[|ops| - 1])
  }

  function Empty(): Wheel {
    Wheel([], 0, 0, [], [], false)
  }

  // ---- The invariant ----

  ghost predicate EntriesOk(w: Wheel) {
    && (forall t :: t in w.timers ==> t.handler != 0 && t.interval > 0 && t.serial < w.serials && t.next < Bits.WORD64)
    && (forall t :: t in w.timers && !w.wrapped ==> t.next <= w.clock + t.interval)
    && (forall i, j :: 0 <= i < j < |w.timers| ==> w.timers[i].serial != w.timers[j].serial)
  }

  /** An entry is next due no earlier than its interval after each of its firings. */
  ghost predicate SpacedFrom(t: Timer, f: Firing) {
    f.serial == t.serial ==> f.interval == t.interval && f.at + t.interval <= t.next
  }

  ghost predicate FiringsOk(w: Wheel) {
    && (forall f :: f in w.fired ==> f.serial < w.serials && f.at <= w.clock)
    && (forall t, f :: t in w.timers && f in w.fired ==> SpacedFrom(t, f))
  }

  /** Two firings of one entry are at least its interval apart. */
  ghost predicate Spaced(fired: seq<Firing>) {
    forall i, j :: 0 <= i < j < |fired| && fired[i].serial == fired[j].serial ==>
      fired[i].interval == fired[j].interval && fired[i].at + fired[i].interval <= fired[j].at
  }

  ghost predicate CallsOk(calls: seq<Call>) {
    forall c :: c in calls ==> Registered(c.registered, c.handler)
  }

  ghost predicate Inv(w: Wheel) {
    EntriesOk(w) && CallsOk(w.calls) && (!w.wrapped ==> FiringsOk(w) && Spaced(w.fired))
  }

  lemma {:induction false} WithoutExact(timers: seq<Timer>, handler: nat, t: Timer)
    ensures t in Without(timers, handler) <==> t in timers && t.handler != handler
  {
    if timers == [] {
    } else {
      var k := |timers| - 1;
      WithoutExact(timers[..k], handler, t);
      assert timers == timers[..k] + [timers[k]];
    }
  }

  /** What is left keeps its order: distinct serials stay distinct. */
  lemma {:induction false} WithoutDistinct(timers: seq<Timer>, handler: nat)
    requires forall i, j :: 0 <= i < j < |timers| ==> timers[i].serial != timers[j].serial
    ensures var r := Without(timers, handler); forall i, j :: 0 <= i < j < |r| ==> r[i].serial != r[j].serial
  {
    if timers == [] {
    } else {
      var k := |timers| - 1;
      WithoutDistinct(timers[..k], handler);
      var rest := Without(timers[..k], handler);
      forall i | 0 <= i < |rest| ensures rest[i].serial != timers[k].serial {
        WithoutExact(timers[..k], handler, rest[i]);
      }
    }
  }

  lemma UnregisterKeeps(w: Wheel, handler: nat)
    requires Inv(w)
    ensures Inv(w.(timers := Without(w.timers, handler)))
  {
    forall t ensures t in Without(w.timers, handler) <==> t in w.timers && t.handler != handler {
      WithoutExact(w.timers, handler, t);
    }
    WithoutDistinct(w.timers, handler);
  }

  lemma RegisterKeeps(w: Wheel, a: Action)
    requires Inv(w) && a.Register?
    ensures Inv(Perform(w, a)) && Perform(w, a).clock >= w.clock
  {
    var now := w.clock + a.elapsed;
    if now + a.interval < Bits.WORD64 {
      assert AddMs(now, a.interval) == now + a.interval;
    }
  }

  lemma PerformKeeps(w: Wheel, a: Action)
    requires Inv(w)
    ensures Inv(Perform(w, a)) && Perform(w, a).clock >= w.clock
    ensures Perform(w, a).fired == w.fired && Perform(w, a).calls == w.calls
    ensures w.wrapped ==> Perform(w, a).wrapped
  {
    match a
    case Register(_, _, _) => RegisterKeeps(w, a);
    case Unregister(handler) => UnregisterKeeps(w, handler);
  }

  lemma {:induction false} PerformAllKeeps(w: Wheel, actions: seq<Action>)
    requires Inv(w)
    ensures Inv(PerformAll(w, actions)) && PerformAll(w, actions).clock >= w.clock
    ensures PerformAll(w, actions).fired == w.fired && PerformAll(w, actions).calls == w.calls
    ensures w.wrapped ==> PerformAll(w, actions).wrapped
  {
    if actions == [] {
    } else {
      var k := |actions| - 1;
      PerformAllKeeps(w, actions[..k]);
      PerformKeeps(PerformAll(w, actions[..k]), actions[k]);
    }
  }

  /** The firings of a scan, entry by entry. */
  lemma {:induction false} FiringsExact(timers: seq<Timer>, now: nat, f: Firing)
    ensures f in Firings(timers, now) <==>
      exists i :: 0 <= i < |timers| && timers[i].next <= now && f == Firing(timers[i].serial, timers[i].interval, now)
  {
    if timers == [] {
    } else {
      var k := |timers| - 1;
      FiringsExact(timers[..k], now, f);
      assert forall i :: 0 <= i < k ==> timers[..k][i] == timers[i];
    }
  }

  lemma {:induction false} FiringsDistinct(timers: seq<Timer>, now: nat)
    requires forall i, j :: 0 <= i < j < |timers| ==> timers[i].serial != timers[j].serial
    ensures var r := Firings(timers, now); forall i, j :: 0 <= i < j < |r| ==> r[i].serial != r[j].serial
  {
    if timers == [] {
    } else {
      var k := |timers| - 1;
      FiringsDistinct(timers[..k], now);
      var rest := Firings(timers[..k], now);
      forall i | 0 <= i < |rest| ensures rest[i].serial != timers[k].serial {
        FiringsExact(timers[..k], now, rest[i]);
      }
    }
  }

  lemma RefreshSpaces(w: Wheel, elapsed: nat)
    requires Inv(w) && !w.wrapped
    ensures Spaced(Refresh(w, elapsed).fired)
  {
    var now := w.clock + elapsed;
    var before, added := w.fired, Firings(w.timers, now);
    FiringsDistinct(w.timers, now);
    forall i, j | 0 <= i < |before| && 0 <= j < |added| && before[i].serial == added[j].serial
      ensures before[i].interval == added[j].interval && before[i].at + before[i].interval <= now == added[j].at
    {
      FiringsExact(w.timers, now, added[j]);
      var k :| 0 <= k < |w.timers| && w.timers[k].next <= now
        && added[j] == Firing(w.timers[k].serial, w.timers[k].interval, now);
      assert SpacedFrom(w.timers[k], before[i]);
    }
  }

  lemma RefreshedEntry(w: Wheel, elapsed: nat, i: nat)
    requires Inv(w) && i < |w.timers|
    ensures var t, t', now := w.timers[i], Refresh(w, elapsed).timers[i], w.clock + elapsed;
      && t' == t.(next := t'.next) && t'.next < Bits.WORD64
      && (!Refresh(w, elapsed).wrapped ==> now < t'.next <= now + t'.interval && t.next <= t'.next)
  {
    var t, now := w.timers[i], w.clock + elapsed;
    assert t in w.timers;
    if t.next <= now && !RefreshWraps(w.timers, now) {
      assert AddMs(now, t.interval) == now + t.interval;
    }
  }

  lemma RefreshSpacesEntry(w: Wheel, elapsed: nat, i: nat, f: Firing)
    requires Inv(w) && i < |w.timers| && f in Refresh(w, elapsed).fired && !Refresh(w, elapsed).wrapped
    ensures SpacedFrom(Refresh(w, elapsed).timers[i], f)
    ensures f.serial < w.serials && f.at <= w.clock + elapsed
  {
    var now := w.clock + elapsed;
    RefreshedEntry(w, elapsed, i);
    if f in w.fired {
      assert SpacedFrom(w.timers[i], f);
    } else {
      FiringsExact(w.timers, now, f);
      var k :| 0 <= k < |w.timers| && w.timers[k].next <= now
        && f == Firing(w.timers[k].serial, w.timers[k].interval, now);
      assert k != i ==> w.timers[k].serial != w.timers[i].serial;
      assert k == i && !RefreshWraps(w.timers, now) ==> AddMs(now, w.timers[i].interval) == now + w.timers[i].interval;
    }
  }

  lemma RefreshKeepsEntries(w: Wheel, elapsed: nat)
    requires Inv(w)
    ensures EntriesOk(Refresh(w, elapsed))
    ensures !Refresh(w, elapsed).wrapped ==> forall t :: t in Refresh(w, elapsed).timers ==> w.clock + elapsed < t.next
  {
    var w' := Refresh(w, elapsed);
    forall i | 0 <= i < |w.timers|
      ensures var t, t' := w.timers[i], w'.timers[i];
        && t in w.timers && t' == t.(next := t'.next) && t'.next < Bits.WORD64
        && (!w'.wrapped ==> w'.clock < t'.next <= w'.clock + t'.interval)
    {
      RefreshedEntry(w, elapsed, i);
    }
  }

  lemma RefreshKeepsFirings(w: Wheel, elapsed: nat)
    requires Inv(w) && !Refresh(w, elapsed).wrapped
    ensures FiringsOk(Refresh(w, elapsed))
  {
    var w' := Refresh(w, elapsed);
    forall t, f | t in w'.timers && f in w'.fired ensures SpacedFrom(t, f) {
      var i :| 0 <= i < |w'.timers| && w'.timers[i] == t;
      RefreshSpacesEntry(w, elapsed, i, f);
    }
    forall f | f in w'.fired ensures f.serial < w.serials && f.at <= w'.clock {
      if f !in w.fired { FiringsExact(w.timers, w'.clock, f); }
    }
  }

  lemma RefreshKeeps(w: Wheel, elapsed: nat)
    requires Inv(w)
    ensures Inv(Refresh(w, elapsed))
  {
    var w' := Refresh(w, elapsed);
    RefreshKeepsEntries(w, elapsed);
    if !w'.wrapped {
      RefreshSpaces(w, elapsed);
      assert FiringsOk(w') by { RefreshKeepsFirings(w, elapsed); }
    }
  }

  lemma TurnKeeps(w: Wheel, handler: nat, script: seq<Action>)
    requires Inv(w)
    ensures Inv(Turn(w, handler, script)) && Turn(w, handler, script).clock >= w.clock
    ensures Turn(w, handler, script).fired == w.fired
    ensures w.wrapped ==> Turn(w, handler, script).wrapped
  {
    if Registered(w.timers, handler) {
      PerformAllKeeps(w.(calls := w.calls + [Call(handler, w.timers)]), script);
    }
  }

  lemma {:induction false} TurnsKeep(w: Wheel, toFire: seq<nat>, scripts: seq<seq<Action>>)
    requires Inv(w)
    ensures Inv(Turns(w, toFire, scripts)) && Turns(w, toFire, scripts).clock >= w.clock
    ensures Turns(w, toFire, scripts).fired == w.fired
    ensures w.wrapped ==> Turns(w, toFire, scripts).wrapped
  {
    if toFire == [] {
    } else {
      var k := |toFire| - 1;
      TurnsKeep(w, toFire[..k], scripts);
      TurnKeeps(Turns(w, toFire[..k], scripts), toFire[k], ScriptOf(scripts, k));
    }
  }

  lemma AfterTurnsKeeps(w: Wheel, elapsed: nat, scripts: seq<seq<Action>>)
    requires Inv(w)
    ensures var w' := AfterTurns(w, elapsed, scripts); Inv(w') && w'.clock >= w.clock && (w.wrapped ==> w'.wrapped)
  {
    if w.timers != [] {
      RefreshKeeps(w, elapsed);
      TurnsKeep(Refresh(w, elapsed), Due(w.timers, w.clock + elapsed), scripts);
    }
  }

  lemma TimePasses(w: Wheel, now: nat)
    requires Inv(w) && now >= w.clock
    ensures Inv(w.(clock := now))
  {
  }

  lemma ApplyKeeps(w: Wheel, op: Op)
    requires Inv(w)
    ensures Inv(Apply(w, op)) && Apply(w, op).clock >= w.clock
  {
    match op
    case Do(a) => PerformKeeps(w, a);
    case Scan(elapsed, scripts, elapsed2) =>
      AfterTurnsKeeps(w, elapsed, scripts);
      var w' := AfterTurns(w, elapsed, scripts);
      TimePasses(w', w'.clock + elapsed2);
  }

  lemma {:induction false} EveryRunInv(ops: seq<Op>)
    ensures Inv(ApplyAll(Empty(), ops))
  {
    if ops == [] {
    } else {
      EveryRunInv(ops[..|ops| - 1]);
      ApplyKeeps(ApplyAll(Empty(), ops[..|ops| - 1]), ops[|ops| - 1]);
    }
  }

  /** Over every run, whatever the handlers do from inside their calls: a handler is called only while it
      has an entry, and, unless some deadline did not fit the 64-bit word, two scans that fire one entry
      are at least its interval apart. */
  lemma EveryRunSpaced(ops: seq<Op>)
    ensures var w := ApplyAll(Empty(), ops);
      && (forall i :: 0 <= i < |w.calls| ==> Registered(w.calls[i].registered, w.calls[i].handler))
      && (!w.wrapped ==> Spaced(w.fired))
  {
    EveryRunInv(ops);
  }

  /** A deadline is its interval away exactly if the sum fits the word; otherwise it is already past. */
  lemma DeadlineFits(now: nat, interval: nat)
    requires now < Bits.WORD64 && interval < Bits.WORD64
    ensures AddMs(now, interval) == now + interval <==> now + interval < Bits.WORD64
    ensures now + interval >= Bits.WORD64 ==> AddMs(now, interval) < now
  {
    if now + interval >= Bits.WORD64 {
      Bits.DivModUnique(now + interval, Bits.WORD64, 1, now + interval - Bits.WORD64);
    }
  }

  /** Register an entry after `elapsed` ms, then scan twice at once. */
  function RegisterAndScanTwice(handler: nat, interval: nat, elapsed: nat): seq<Op> {
    [Do(Register(handler, interval, elapsed)), Scan(0, [], 0), Scan(0, [], 0)]
  }

  lemma FiringTwice(serial: nat, interval: nat, at: nat)
    requires interval > 0
    ensures !Spaced([Firing(serial, interval, at), Firing(serial, interval, at)])
  {
    var fired := [Firing(serial, interval, at), Firing(serial, interval, at)];
    assert fired[0].serial == fired[1].serial;
  }

  lemma ThreeOps(w: Wheel, a: Op, b: Op, c: Op)
    ensures ApplyAll(w, [a, b, c]) == Apply(Apply(Apply(w, a), b), c)
  {
    assert [a, b, c][..2] == [a, b] && [a, b][..1] == [a] && [a][..0] == [];
    assert ApplyAll(w, [a]) == Apply(w, a);
    assert ApplyAll(w, [a, b]) == Apply(ApplyAll(w, [a]), b);
  }

  lemma OneEntry(t: Timer, now: nat)
    requires t.next <= now
    ensures Refreshed([t], now) == [t.(next := AddMs(now, t.interval))]
    ensures Due([t], now) == [t.handler] && Firings([t], now) == [Firing(t.serial, t.interval, now)]
  {
    assert [t][..0] == [];
  }

  lemma OneTurn(w: Wheel, handler: nat)
    ensures Turns(w, [handler], []) == Turn(w, handler, [])
  {
    var one: seq<nat> := [handler];
    assert one[..0] == [];
  }

  lemma ScanRefires(w: Wheel, t: Timer, now: nat)
    requires w.timers == [t] && w.clock == now && t.next < now && AddMs(now, t.interval) == t.next
    ensures var w' := Apply(w, Scan(0, [], 0));
      && w'.timers == [t] && w'.clock == now
      && w'.fired == w.fired + [Firing(t.serial, t.interval, now)]
  {
    OneEntry(t, now);
    OneTurn(Refresh(w, 0), t.handler);
    assert Registered([t], t.handler) by { assert [t][0].handler == t.handler; }
  }

  lemma ScanSkips(w: Wheel, t: Timer)
    requires w.timers == [t] && t.next > w.clock
    ensures Apply(w, Scan(0, [], 0)) == w
  {
    var one := [t];
    assert one[..0] == [] && Due(one[..0], w.clock) == [] && Firings(one[..0], w.clock) == [];
    assert Refreshed(one, w.clock) == one;
    assert Due(one, w.clock) == [] && Firings(one, w.clock) == [];
    assert w.fired + [] == w.fired;
  }

  /** A wrapped deadline does break the spacing, and it takes one: whatever the interval and the time of
      the registration, two immediate scans fire the entry closer than its interval apart exactly if the
      deadline does not fit the word. */
  lemma WrapBreaksSpacing(handler: nat, interval: nat, elapsed: nat)
    requires handler != 0 && 0 < interval < Bits.WORD64 && elapsed < Bits.WORD64
    ensures !Spaced(ApplyAll(Empty(), RegisterAndScanTwice(handler, interval, elapsed)).fired) <==>
      elapsed + interval >= Bits.WORD64
  {
    var ops := RegisterAndScanTwice(handler, interval, elapsed);
    var scan := Scan(0, [], 0);
    var w1 := Perform(Empty(), ops[0].action);
    var t := Timer(handler, interval, AddMs(elapsed, interval), 0);
    ThreeOps(Empty(), ops[0], scan, scan);
    DeadlineFits(elapsed, interval);
    assert w1 == Wheel([t], elapsed, 1, [], [], elapsed + interval >= Bits.WORD64);
    if elapsed + interval >= Bits.WORD64 {
      ScanRefires(w1, t, elapsed);
      var w2 := Apply(w1, scan);
      ScanRefires(w2, t, elapsed);
      FiringTwice(0, interval, elapsed);
      assert Apply(w2, scan).fired == [Firing(0, interval, elapsed), Firing(0, interval, elapsed)];
    } else {
      ScanSkips(w1, t);
      assert Apply(Apply(w1, scan), scan).fired == [];
    }
  }

  /** Of the entries that are there `after`, those given out before serial number `since` were there before. */
  ghost predicate NoneBack(before: seq<Timer>, after: seq<Timer>, since: nat) {
    forall t :: t in after && t.serial < since ==> t in before
  }

  lemma PerformBringsNoneBack(w: Wheel, a: Action, since: nat)
    requires since <= w.serials
    ensures since <= Perform(w, a).serials && NoneBack(w.timers, Perform(w, a).timers, since)
  {
    if a.Unregister? {
      forall t | t in Without(w.timers, a.handler) ensures t in w.timers {
        WithoutExact(w.timers, a.handler, t);
      }
    }
  }

  lemma {:induction false} PerformAllBringsNoneBack(w: Wheel, actions: seq<Action>, since: nat)
    requires since <= w.serials
    ensures since <= PerformAll(w, actions).serials && NoneBack(w.timers, PerformAll(w, actions).timers, since)
  {
    if actions == [] {
    } else {
      var k := |actions| - 1;
      PerformAllBringsNoneBack(w, actions[..k], since);
      PerformBringsNoneBack(PerformAll(w, actions[..k]), actions[k], since);
    }
  }

  lemma {:induction false} TurnsBringNoneBack(w: Wheel, toFire: seq<nat>, scripts: seq<seq<Action>>, since: nat)
    requires since <= w.serials
    ensures since <= Turns(w, toFire, scripts).serials && NoneBack(w.timers, Turns(w, toFire, scripts).timers, since)
  {
    if toFire == [] {
    } else {
      var k := |toFire| - 1;
      TurnsBringNoneBack(w, toFire[..k], scripts, since);
      var before := Turns(w, toFire[..k], scripts);
      if Registered(before.timers, toFire[k]) {
        var called := before.(calls := before.calls + [Call(toFire[k], before.timers)]);
        PerformAllBringsNoneBack(called, ScriptOf(scripts, k), since);
      }
    }
  }

  lemma AfterTurnsHistory(w: Wheel, elapsed: nat, scripts: seq<seq<Action>>)
    requires Inv(w) && w.timers != []
    ensures var w' := AfterTurns(w, elapsed, scripts);
      && w'.fired == w.fired + Firings(w.timers, w.clock + elapsed) && w'.clock >= w.clock + elapsed
      && NoneBack(Refreshed(w.timers, w.clock + elapsed), w'.timers, w.serials)
  {
    var refreshed, toFire := Refresh(w, elapsed), Due(w.timers, w.clock + elapsed);
    RefreshKeeps(w, elapsed);
    TurnsKeep(refreshed, toFire, scripts);
    TurnsBringNoneBack(refreshed, toFire, scripts, w.serials);
  }

  /** A scan fires the due entries, and of the entries there before it leaves at most the refreshed ones. */
  lemma ScanHistory(w: Wheel, scan: Op, now: nat)
    requires Inv(w) && scan.Scan? && w.timers != [] && now == w.clock + scan.elapsed
    ensures Apply(w, scan).clock >= now
    ensures Apply(w, scan).fired == w.fired + Firings(w.timers, now)
    ensures NoneBack(Refreshed(w.timers, now), Apply(w, scan).timers, w.serials)
  {
    AfterTurnsHistory(w, scan.elapsed, scan.scripts);
  }

  /** What is left of an entry that was due. */
  lemma RefreshedBySerial(w: Wheel, now: nat, t: Timer, t': Timer)
    requires EntriesOk(w) && t in w.timers && t.next <= now && t' in Refreshed(w.timers, now) && t'.serial == t.serial
    ensures t' == t.(next := AddMs(now, t.interval))
  {
    var i :| 0 <= i < |w.timers| && Refreshed(w.timers, now)[i] == t';
    var j :| 0 <= j < |w.timers| && w.timers[j] == t;
    assert i == j;
  }

  /** Among the firings of a scan there is one of entry `t` exactly if it was due. */
  lemma FiresIfDue(w: Wheel, now: nat, t: Timer)
    requires Inv(w) && t in w.timers
    ensures (exists f :: f in Firings(w.timers, now) && f.serial == t.serial) <==> t.next <= now
    ensures t.next <= now ==> Firing(t.serial, t.interval, now) in Firings(w.timers, now)
  {
    var i :| 0 <= i < |w.timers| && w.timers[i] == t;
    FiringsExact(w.timers, now, Firing(t.serial, t.interval, now));
    forall f | f in Firings(w.timers, now) && f.serial == t.serial ensures t.next <= now {
      FiringsExact(w.timers, now, f);
    }
  }

  lemma TwoFirings(before: seq<Firing>, a: seq<Firing>, b: seq<Firing>, f: Firing, g: Firing)
    requires f in a && g in b && f.serial == g.serial && f.at + f.interval > g.at
    ensures !Spaced(before + a + b)
  {
    var i :| 0 <= i < |a| && a[i] == f;
    var j :| 0 <= j < |b| && b[j] == g;
    var all := before + a + b;
    assert all[|before| + i] == f && all[|before| + |a| + j] == g;
  }

  /** A scan at `now` that fired `t`, and one at `now2`, before its interval is over. */
  lemma SecondFiring(w: Wheel, now: nat, w1: Wheel, now2: nat, t: Timer, t': Timer, fired2: seq<Firing>)
    requires Inv(w) && Inv(w1) && NoneBack(Refreshed(w.timers, now), w1.timers, w.serials)
    requires t in w.timers && t' in w1.timers && t'.serial == t.serial
    requires t.next <= now <= now2 < now + t.interval && now < Bits.WORD64 && t.interval < Bits.WORD64
    requires w1.fired == w.fired + Firings(w.timers, now) && fired2 == w1.fired + Firings(w1.timers, now2)
    ensures w1.fired <= fired2
    ensures (exists f :: f in fired2[|w1.fired|..] && f.serial == t.serial) <==> now + t.interval >= Bits.WORD64
    ensures now + t.interval >= Bits.WORD64 ==> !Spaced(fired2)
  {
    RefreshedBySerial(w, now, t, t');
    DeadlineFits(now, t.interval);
    FiresIfDue(w, now, t);
    FiresIfDue(w1, now2, t');
    assert fired2[|w1.fired|..] == Firings(w1.timers, now2);
    if now + t.interval >= Bits.WORD64 {
      var f, g := Firing(t.serial, t.interval, now), Firing(t.serial, t.interval, now2);
      TwoFirings(w.fired, Firings(w.timers, now), Firings(w1.timers, now2), f, g);
    }
  }

  /** Two scans, whatever handlers do during both: an entry that the first one fired, and that is still
      there, fires again in the second although its interval is not over exactly if its deadline did not
      fit the word. */
  lemma FiresEarlyExactly(w: Wheel, first: Op, w1: Wheel, second: Op, w2: Wheel, t: Timer, t': Timer)
    requires Inv(w) && first.Scan? && second.Scan? && w1 == Apply(w, first) && w2 == Apply(w1, second)
    requires t in w.timers && t.next <= w.clock + first.elapsed && t' in w1.timers && t'.serial == t.serial
    requires w.clock + first.elapsed < Bits.WORD64 && t.interval < Bits.WORD64
    requires w1.clock + second.elapsed < w.clock + first.elapsed + t.interval
    ensures w1.fired <= w2.fired
    ensures (exists f :: f in w2.fired[|w1.fired|..] && f.serial == t.serial) <==>
      w.clock + first.elapsed + t.interval >= Bits.WORD64
    ensures w.clock + first.elapsed + t.interval >= Bits.WORD64 ==> !Spaced(w2.fired)
  {
    var now, now2 := w.clock + first.elapsed, w1.clock + second.elapsed;
    ScanHistory(w, first, now);
    ApplyKeeps(w, first);
    ScanHistory(w1, second, now2);
    SecondFiring(w, now, w1, now2, t, t', w2.fired);
  }

  // ---- The returned wait ----

  lemma {:induction false} SoonestIsLeast(timers: seq<Timer>)
    requires forall t :: t in timers ==> t.next < Bits.WORD64
    ensures forall t :: t in timers ==> Soonest(timers) <= t.next
    ensures timers != [] ==> exists t :: t in timers && t.next == Soonest(timers)
    ensures Soonest(timers) <= NO_TIMERS
  {
    if timers == [] {
    } else {
      var k := |timers| - 1;
      SoonestIsLeast(timers[..k]);
      assert timers == timers[..k] + [timers[k]];
      if k == 0 || timers[k].next < Soonest(timers[..k]) {
        assert timers[k] in timers;
      } else {
        var t :| t in timers[..k] && t.next == Soonest(timers[..k]);
        assert t in timers;
      }
    }
  }

  /** The scan returns the sentinel exactly if no entry remains, or the clock reads zero and every
      deadline is the last value of the word. Otherwise it returns the time to the earliest deadline,
      and zero exactly if some deadline has passed. */
  lemma ScanReturns(w: Wheel, elapsed: nat, scripts: seq<seq<Action>>, elapsed2: nat)
    requires Inv(w)
    ensures var (w', wait) := Scanned(w, elapsed, scripts, elapsed2);
      && (wait == NO_TIMERS <==>
            w'.timers == [] || (w'.clock == 0 && forall t :: t in w'.timers ==> t.next == NO_TIMERS))
      && (w'.timers != [] ==>
            && (wait == 0 <==> exists t :: t in w'.timers && t.next <= w'.clock)
            && (wait > 0 ==>
                  && (forall t :: t in w'.timers ==> w'.clock + wait <= t.next)
                  && exists t :: t in w'.timers && t.next == w'.clock + wait))
  {
    AfterTurnsKeeps(w, elapsed, scripts);
    SoonestIsLeast(AfterTurns(w, elapsed, scripts).timers);
  }

  ghost predicate AllAfter(w: Wheel, at: nat) {
    w.clock >= at && forall t :: t in w.timers ==> at < t.next
  }

  lemma PerformStaysAfter(w: Wheel, a: Action, at: nat)
    requires Inv(w) && AllAfter(w, at) && !Perform(w, a).wrapped
    ensures AllAfter(Perform(w, a), at)
  {
    if a.Unregister? {
      forall t | t in Without(w.timers, a.handler) ensures t in w.timers { WithoutExact(w.timers, a.handler, t); }
    } else if a.handler != 0 && a.interval != 0 {
      assert AddMs(w.clock + a.elapsed, a.interval) == w.clock + a.elapsed + a.interval;
    }
  }

  lemma {:induction false} PerformAllStaysAfter(w: Wheel, actions: seq<Action>, at: nat)
    requires Inv(w) && AllAfter(w, at) && !PerformAll(w, actions).wrapped
    ensures AllAfter(PerformAll(w, actions), at)
  {
    if actions == [] {
    } else {
      var before := actions[..|actions| - 1];
      PerformAllKeeps(w, before);
      PerformKeeps(PerformAll(w, before), actions[|actions| - 1]);
      PerformAllStaysAfter(w, before, at);
      PerformStaysAfter(PerformAll(w, before), actions[|actions| - 1], at);
    }
  }

  lemma {:induction false} TurnsStayAfter(w: Wheel, toFire: seq<nat>, scripts: seq<seq<Action>>, at: nat)
    requires Inv(w) && AllAfter(w, at) && !Turns(w, toFire, scripts).wrapped
    ensures AllAfter(Turns(w, toFire, scripts), at)
  {
    if toFire == [] {
    } else {
      var k := |toFire| - 1;
      var before, script := Turns(w, toFire[..k], scripts), ScriptOf(scripts, k);
      TurnsKeep(w, toFire[..k], scripts);
      TurnKeeps(before, toFire[k], script);
      TurnsStayAfter(w, toFire[..k], scripts, at);
      if Registered(before.timers, toFire[k]) {
        PerformAllStaysAfter(before.(calls := before.calls + [Call(toFire[k], before.timers)]), script, at);
      }
    }
  }

  /** A scan leaves no deadline at or before its own start, so it returns zero only if time has passed
      since: missed fires do not pile up. */
  lemma ScanCatchesUp(w: Wheel, elapsed: nat, scripts: seq<seq<Action>>, elapsed2: nat)
    requires Inv(w) && w.timers != []
    ensures var (w', wait) := Scanned(w, elapsed, scripts, elapsed2);
      !w'.wrapped ==>
        && (forall t :: t in w'.timers ==> w.clock + elapsed < t.next)
        && (wait == 0 ==> w'.clock > w.clock + elapsed)
  {
    var w' := AfterTurns(w, elapsed, scripts);
    if !w'.wrapped {
      var toFire := Due(w.timers, w.clock + elapsed);
      RefreshKeeps(w, elapsed);
      TurnsKeep(Refresh(w, elapsed), toFire, scripts);
      RefreshKeepsEntries(w, elapsed);
      TurnsStayAfter(Refresh(w, elapsed), toFire, scripts, w.clock + elapsed);
      ScanReturns(w, elapsed, scripts, elapsed2);
    }
  }

  // ---- Which handlers are called ----

  function Handlers(calls: seq<Call>): (r: seq<nat>)
    ensures |r| == |calls|
  {
    seq(|calls|, i requires 0 <= i < |calls| => calls[i].handler)
  }

  lemma SnocCounts(added: seq<Call>, call: Call)
    ensures multiset(Handlers(added + [call])) == multiset(Handlers(added)) + multiset{call.handler}
  {
    assert Handlers(added + [call]) == Handlers(added) + [call.handler];
  }

  /** The calls that one turn makes. */
  lemma TurnCalls(w: Wheel, handler: nat, script: seq<Action>)
    requires Inv(w)
    ensures Turn(w, handler, script).calls ==
      w.calls + if Registered(w.timers, handler) then [Call(handler, w.timers)] else []
  {
    if Registered(w.timers, handler) {
      PerformAllKeeps(w.(calls := w.calls + [Call(handler, w.timers)]), script);
    }
  }

  lemma OneMoreDue(toFire: seq<nat>, added: seq<Call>, call: Call)
    requires toFire != [] && call.handler == toFire[|toFire| - 1]
    requires multiset(Handlers(added)) <= multiset(toFire[..|toFire| - 1])
    ensures multiset(Handlers(added)) <= multiset(toFire) && multiset(Handlers(added + [call])) <= multiset(toFire)
  {
    var k := |toFire| - 1;
    assert toFire == toFire[..k] + [toFire[k]];
    SnocCounts(added, call);
  }

  /** A scan calls a handler at most once for each of its due entries. */
  lemma {:induction false} CallsAreDue(w: Wheel, toFire: seq<nat>, scripts: seq<seq<Action>>) returns (added: seq<Call>)
    requires Inv(w)
    ensures Turns(w, toFire, scripts).calls == w.calls + added
    ensures multiset(Handlers(added)) <= multiset(toFire)
  {
    added := [];
    if toFire == [] {
    } else {
      var k := |toFire| - 1;
      added := CallsAreDue(w, toFire[..k], scripts);
      var before := Turns(w, toFire[..k], scripts);
      TurnsKeep(w, toFire[..k], scripts);
      TurnCalls(before, toFire[k], ScriptOf(scripts, k));
      var call := Call(toFire[k], before.timers);
      OneMoreDue(toFire, added, call);
      if Registered(before.timers, toFire[k]) {
        Reassociate(w.calls, added, [call]);
        added := added + [call];
      }
    }
  }

  /** An entry of `handler` that was there before serial number `since` was given out. */
  ghost predicate HasOld(timers: seq<Timer>, handler: nat, since: nat) {
    exists t :: t in timers && t.handler == handler && t.serial < since
  }

  lemma PerformCancels(w: Wheel, a: Action, handler: nat, since: nat)
    requires handler != 0 && since <= w.serials
    ensures HasOld(Perform(w, a).timers, handler, since) <==>
      HasOld(w.timers, handler, since) && a != Unregister(handler)
    ensures since <= Perform(w, a).serials
  {
    if a.Unregister? {
      forall t ensures t in Without(w.timers, a.handler) <==> t in w.timers && t.handler != a.handler {
        WithoutExact(w.timers, a.handler, t);
      }
    }
  }

  lemma {:induction false} PerformAllCancels(w: Wheel, actions: seq<Action>, handler: nat, since: nat)
    requires handler != 0 && since <= w.serials
    ensures HasOld(PerformAll(w, actions).timers, handler, since) <==>
      HasOld(w.timers, handler, since) && Unregister(handler) !in actions
    ensures since <= PerformAll(w, actions).serials
  {
    if actions == [] {
    } else {
      var k := |actions| - 1;
      PerformAllCancels(w, actions[..k], handler, since);
      PerformCancels(PerformAll(w, actions[..k]), actions[k], handler, since);
      assert actions == actions[..k] + [actions[k]];
    }
  }

  ghost predicate CancelsAt(w: Wheel, toFire: seq<nat>, scripts: seq<seq<Action>>, handler: nat, k: nat)
    requires k < |toFire|
  {
    Registered(Turns(w, toFire[..k], scripts).timers, toFire[k]) && Unregister(handler) in ScriptOf(scripts, k)
  }

  /** One of the handlers called in these turns unregistered `handler`. */
  ghost predicate Cancelled(w: Wheel, toFire: seq<nat>, scripts: seq<seq<Action>>, handler: nat) {
    exists k :: 0 <= k < |toFire| && CancelsAt(w, toFire, scripts, handler, k)
  }

  lemma {:induction false} TurnsCancel(w: Wheel, toFire: seq<nat>, scripts: seq<seq<Action>>, handler: nat, since: nat)
    requires handler != 0 && since <= w.serials
    ensures HasOld(Turns(w, toFire, scripts).timers, handler, since) <==>
      HasOld(w.timers, handler, since) && !Cancelled(w, toFire, scripts, handler)
    ensures since <= Turns(w, toFire, scripts).serials
  {
    if toFire == [] {
    } else {
      var k := |toFire| - 1;
      TurnsCancel(w, toFire[..k], scripts, handler, since);
      forall i | 0 <= i < k
        ensures CancelsAt(w, toFire[..k], scripts, handler, i) == CancelsAt(w, toFire, scripts, handler, i)
      {
        assert toFire[..k][..i] == toFire[..i];
      }
      assert Cancelled(w, toFire, scripts, handler) <==>
          Cancelled(w, toFire[..k], scripts, handler) || CancelsAt(w, toFire, scripts, handler, k) by {
        if Cancelled(w, toFire[..k], scripts, handler) {
          var i :| 0 <= i < k && CancelsAt(w, toFire[..k], scripts, handler, i);
          assert CancelsAt(w, toFire, scripts, handler, i);
        }
      }
      var before := Turns(w, toFire[..k], scripts);
      if Registered(before.timers, toFire[k]) {
        var called := before.(calls := before.calls + [Call(toFire[k], before.timers)]);
        PerformAllCancels(called, ScriptOf(scripts, k), handler, since);
      }
    }
  }

  lemma {:induction false} DueExact(timers: seq<Timer>, now: nat, handler: nat)
    ensures handler in Due(timers, now) <==> exists t :: t in timers && t.next <= now && t.handler == handler
  {
    if timers == [] {
    } else {
      var k := |timers| - 1;
      DueExact(timers[..k], now, handler);
      assert timers == timers[..k] + [timers[k]];
    }
  }

  lemma RefreshHasOld(w: Wheel, elapsed: nat, handler: nat)
    requires Inv(w) && handler in Due(w.timers, w.clock + elapsed)
    ensures HasOld(Refresh(w, elapsed).timers, handler, w.serials) && handler != 0
  {
    DueExact(w.timers, w.clock + elapsed, handler);
    var t :| t in w.timers && t.next <= w.clock + elapsed && t.handler == handler;
    var i :| 0 <= i < |w.timers| && w.timers[i] == t;
    assert Refresh(w, elapsed).timers[i].handler == handler;
  }

  /** When the turn of a due handler comes, the entry it is due for is still there exactly if no handler
      called earlier in this scan has unregistered it. */
  lemma DueEntryStands(w: Wheel, elapsed: nat, scripts: seq<seq<Action>>, k: nat)
    requires Inv(w) && k < |Due(w.timers, w.clock + elapsed)|
    ensures var toFire := Due(w.timers, w.clock + elapsed);
      HasOld(Turns(Refresh(w, elapsed), toFire[..k], scripts).timers, toFire[k], w.serials) <==>
      !Cancelled(Refresh(w, elapsed), toFire[..k], scripts, toFire[k])
  {
    var toFire := Due(w.timers, w.clock + elapsed);
    RefreshHasOld(w, elapsed, toFire[k]);
    TurnsCancel(Refresh(w, elapsed), toFire[..k], scripts, toFire[k], w.serials);
  }

  lemma TurnIsCalled(w: Wheel, handler: nat, script: seq<Action>)
    requires Inv(w)
    ensures Turn(w, handler, script).calls ==
      if exists t :: t in w.timers && t.handler == handler then w.calls + [Call(handler, w.timers)] else w.calls
  {
    if t :| t in w.timers && t.handler == handler {
      var i :| 0 <= i < |w.timers| && w.timers[i] == t;
      assert Registered(w.timers, handler);
      PerformAllKeeps(w.(calls := w.calls + [Call(handler, w.timers)]), script);
    }
  }

  lemma OneTurnMore(w: Wheel, toFire: seq<nat>, scripts: seq<seq<Action>>, k: nat)
    requires k < |toFire|
    ensures Turns(w, toFire[..k + 1], scripts) == Turn(Turns(w, toFire[..k], scripts), toFire[k], ScriptOf(scripts, k))
  {
    assert toFire[..k + 1][..k] == toFire[..k];
  }

  /** A due handler that none of those before it has unregistered is called when its turn comes. */
  lemma StandingIsCalled(w: Wheel, elapsed: nat, scripts: seq<seq<Action>>, k: nat)
    requires Inv(w) && k < |Due(w.timers, w.clock + elapsed)|
    requires var toFire := Due(w.timers, w.clock + elapsed);
      !Cancelled(Refresh(w, elapsed), toFire[..k], scripts, toFire[k])
    ensures var toFire := Due(w.timers, w.clock + elapsed);
      var before := Turns(Refresh(w, elapsed), toFire[..k], scripts);
      Turns(Refresh(w, elapsed), toFire[..k + 1], scripts).calls == before.calls + [Call(toFire[k], before.timers)]
  {
    var toFire := Due(w.timers, w.clock + elapsed);
    var before := Turns(Refresh(w, elapsed), toFire[..k], scripts);
    DueEntryStands(w, elapsed, scripts, k);
    RefreshKeeps(w, elapsed);
    TurnsKeep(Refresh(w, elapsed), toFire[..k], scripts);
    OneTurnMore(Refresh(w, elapsed), toFire, scripts, k);
    TurnIsCalled(before, toFire[k], ScriptOf(scripts, k));
  }

  // ---- Order ----

  function OtherThan(timers: seq<Timer>, handler: nat): (f: seq<bool>)
    ensures |f| == |timers|
  {
    seq(|timers|, i requires 0 <= i < |timers| => timers[i].handler != handler)
  }

  /** What an unregistration leaves keeps its order. */
  lemma {:induction false} WithoutInOrder(timers: seq<Timer>, handler: nat) returns (at: seq<nat>)
    ensures Filters(at, OtherThan(timers, handler), timers, Without(timers, handler))
  {
    if timers == [] {
      at := [];
    } else {
      var n := |timers| - 1;
      var before, t := timers[..n], timers[n];
      at := WithoutInOrder(before, handler);
      FiltersOneMore(at, OtherThan(before, handler), before, Without(before, handler), t.handler != handler, t);
      assert before + [t] == timers;
      assert OtherThan(before, handler) + [t.handler != handler] == OtherThan(timers, handler);
      at := if t.handler != handler then at + [n] else at;
    }
  }

  function IsDue(timers: seq<Timer>, now: nat): (f: seq<bool>)
    ensures |f| == |timers|
  {
    seq(|timers|, i requires 0 <= i < |timers| => timers[i].next <= now)
  }

  function HandlersOf(timers: seq<Timer>): (r: seq<nat>)
    ensures |r| == |timers|
  {
    seq(|timers|, i requires 0 <= i < |timers| => timers[i].handler)
  }

  /** The handlers whose turn comes are those of the due entries, in the order of the entries. */
  lemma {:induction false} DueInOrder(timers: seq<Timer>, now: nat) returns (at: seq<nat>)
    ensures Filters(at, IsDue(timers, now), HandlersOf(timers), Due(timers, now))
  {
    if timers == [] {
      at := [];
    } else {
      var n := |timers| - 1;
      var before, t := timers[..n], timers[n];
      at := DueInOrder(before, now);
      FiltersOneMore(at, IsDue(before, now), HandlersOf(before), Due(before, now), t.next <= now, t.handler);
      assert HandlersOf(before) + [t.handler] == HandlersOf(timers);
      assert IsDue(before, now) + [t.next <= now] == IsDue(timers, now);
      at := if t.next <= now then at + [n] else at;
    }
  }

  lemma {:induction false} WithoutNone(timers: seq<Timer>, handler: nat)
    requires forall t :: t in timers ==> t.handler != handler
    ensures Without(timers, handler) == timers
  {
    if timers == [] {
    } else {
      var k := |timers| - 1;
      WithoutNone(timers[..k], handler);
      assert timers == timers[..k] + [timers[k]];
    }
  }

  lemma WithoutLast(others: seq<Timer>, t: Timer)
    requires forall o :: o in others ==> o.handler != t.handler
    ensures Without(others + [t], t.handler) == others
  {
    WithoutNone(others, t.handler);
    assert (others + [t])[..|others|] == others;
  }

  /** A registration adds one entry behind the others, due an interval after the clock's reading, or that much
      less a whole word, and then the wheel remembers it. */
  lemma RegisterExactly(w: Wheel, handler: nat, interval: nat, elapsed: nat)
    requires handler != 0 && 0 < interval < Bits.WORD64 && w.clock + elapsed < Bits.WORD64
    ensures var now, w' := w.clock + elapsed, Perform(w, Register(handler, interval, elapsed));
      var wraps := now + interval >= 0x1_0000_0000_0000_0000;
      var next := if wraps then now + interval - 0x1_0000_0000_0000_0000 else now + interval;
      && w'.timers == w.timers + [Timer(handler, interval, next, w.serials)] && w'.serials == w.serials + 1
      && w'.clock == now && w'.fired == w.fired && w'.calls == w.calls && w'.wrapped == (w.wrapped || wraps)
  {
    var sum := w.clock + elapsed + interval;
    Bits.DivModUnique(sum, Bits.WORD64, if sum >= Bits.WORD64 then 1 else 0,
      if sum >= Bits.WORD64 then sum - Bits.WORD64 else sum);
  }

  lemma RegisterFits(w: Wheel, handler: nat, interval: nat)
    requires handler != 0 && interval > 0 && w.clock + interval < Bits.WORD64
    ensures Perform(w, Register(handler, interval, 0)) ==
      w.(timers := w.timers + [Timer(handler, interval, w.clock + interval, w.serials)], serials := w.serials + 1)
  {
    RegisterExactly(w, handler, interval, 0);
  }

  /** A handler that unregisters `handler`, which holds the last entry, and registers it again. */
  lemma RegisteredAgain(w: Wheel, others: seq<Timer>, t: Timer, interval: nat)
    requires w.timers == others + [t] && t.handler != 0 && interval > 0 && w.clock + interval < Bits.WORD64
    requires forall o :: o in others ==> o.handler != t.handler
    ensures Perform(Perform(w, Unregister(t.handler)), Register(t.handler, interval, 0)) ==
      w.(timers := others + [Timer(t.handler, interval, w.clock + interval, w.serials)], serials := w.serials + 1)
  {
    WithoutLast(others, t);
    RegisterFits(Perform(w, Unregister(t.handler)), t.handler, interval);
  }

  lemma PerformTwo(w: Wheel, a: Action, b: Action)
    ensures PerformAll(w, [a, b]) == Perform(Perform(w, a), b)
  {
    var both := [a, b];
    assert both[..1] == [a] && [a][..0] == [];
    assert PerformAll(w, [a]) == Perform(w, a);
  }

  lemma TwoTurns(w: Wheel, first: nat, second: nat, script: seq<Action>)
    ensures Turns(w, [first, second], [script]) == Turn(Turn(w, first, script), second, [])
  {
    var both := [first, second];
    assert both[..1] == [first] && [first][..0] == [];
    assert Turns(w, [first], [script]) == Turn(w, first, script);
  }

  lemma TwoDue(a: Timer, b: Timer, now: nat)
    requires a.next <= now && b.next <= now
    ensures Due([a, b], now) == [a.handler, b.handler]
    ensures Refreshed([a, b], now) == [a.(next := AddMs(now, a.interval))] + [b.(next := AddMs(now, b.interval))]
  {
    assert [a, b][..1] == [a] && [a][..0] == [];
    assert Due([a], now) == [a.handler];
  }

  /** A turn whose callback unregisters the second of two handlers and registers it again. */
  lemma AgainTurn(w: Wheel, a: Timer, b: Timer, interval: nat)
    requires w.timers == [a, b] && a.handler != b.handler && b.handler != 0
    requires interval > 0 && w.clock + interval < Bits.WORD64
    ensures Turn(w, a.handler, [Unregister(b.handler), Register(b.handler, interval, 0)]) ==
      w.(timers := [a, Timer(b.handler, interval, w.clock + interval, w.serials)], serials := w.serials + 1,
         calls := w.calls + [Call(a.handler, w.timers)])
  {
    assert Registered(w.timers, a.handler) by { assert w.timers[0].handler == a.handler; }
    var called := w.(calls := w.calls + [Call(a.handler, w.timers)]);
    PerformTwo(called, Unregister(b.handler), Register(b.handler, interval, 0));
    RegisteredAgain(called, [a], b, interval);
  }

  /** If it has been unregistered and registered again, the handler is called all the same, although its
      only entry is not due: here by the callback of the entry before it. */
  lemma RegisteredAgainIsCalledEarly(a: Timer, b: Timer, w: Wheel, interval: nat)
    requires w.timers == [a, b] && Inv(w) && a.next <= w.clock && b.next <= w.clock && a.handler != b.handler
    requires interval > 0 && w.clock + interval < Bits.WORD64
    ensures var again := [Unregister(b.handler), Register(b.handler, interval, 0)];
      var w' := AfterTurns(w, 0, [again]);
      && |w'.calls| == |w.calls| + 2 && w'.calls[|w.calls| + 1].handler == b.handler
      && (forall t :: t in w'.calls[|w.calls| + 1].registered && t.handler == b.handler ==>
            t.next > w'.clock && t.serial >= w.serials)
  {
    var again := [Unregister(b.handler), Register(b.handler, interval, 0)];
    TwoDue(a, b, w.clock);
    var r := Refresh(w, 0);
    TwoTurns(r, a.handler, b.handler, again);
    AgainTurn(r, r.timers[0], r.timers[1], interval);
    var w1 := Turn(r, a.handler, again);
    assert Registered(w1.timers, b.handler) by { assert w1.timers[1].handler == b.handler; }
  }

  // ---- The object ----

  lemma {:induction false} WithoutAll(timers: seq<Timer>, handler: nat)
    ensures Without(timers, handler) == timers <==> !Registered(timers, handler)
  {
    if Registered(timers, handler) {
      var i :| 0 <= i < |timers| && timers[i].handler == handler;
      WithoutExact(timers, handler, timers[i]);
      assert timers[i] in timers;
    } else {
      WithoutNone(timers, handler);
    }
  }

  class HostRunLoop {
    var timers: seq<Timer>
    var clock: nat
    var serials: nat
    ghost var fired: seq<Firing>
    ghost var calls: seq<Call>
    ghost var wrapped: bool

    ghost function Model(): Wheel
      reads this
    {
      Wheel(timers, clock, serials, fired, calls, wrapped)
    }

    constructor ()
      ensures Model() == Empty()
    {
      timers, clock, serials, fired, calls, wrapped := [], 0, 0, [], [], false;
    }

    method RegisterTimer(handler: nat, interval: nat, elapsed: nat) returns (status: Status)
      modifies this
      ensures Model() == Perform(old(Model()), Register(handler, interval, elapsed))
      ensures status == if handler == 0 || interval == 0 then InvalidArgument else ResultTrue
    {
      if handler == 0 || interval == 0 {
        return InvalidArgument;
      }
      clock := clock + elapsed;
      wrapped := wrapped || clock + interval >= Bits.WORD64;
      timers := timers + [Timer(handler, interval, AddMs(clock, interval), serials)];
      serials := serials + 1;
      return ResultTrue;
    }

    method UnregisterTimer(handler: nat) returns (status: Status)
      modifies this
      ensures Model() == Perform(old(Model()), Unregister(handler))
      ensures status ==
        if handler == 0 then InvalidArgument else if Registered(old(timers), handler) then ResultTrue else ResultFalse
    {
      if handler == 0 {
        return InvalidArgument;
      }
      var kept: seq<Timer> := [];
      var i := 0;
      while i < |timers|
        invariant i <= |timers| && timers == old(timers) && kept == Without(timers[..i], handler)
      {
        assert timers[..i + 1][..i] == timers[..i];
        if timers[i].handler != handler {
          kept := kept + [timers[i]];
        }
        i := i + 1;
      }
      assert timers[..i] == timers;
      WithoutAll(timers, handler);
      status := if kept == timers then ResultFalse else ResultTrue;
      timers := kept;
    }

    /** A handler's callback: any sequence of registrations and unregistrations. */
    method OnTimer(script: seq<Action>)
      modifies this
      ensures Model() == PerformAll(old(Model()), script)
    {
      var i := 0;
      while i < |script|
        invariant i <= |script| && Model() == PerformAll(old(Model()), script[..i])
      {
        assert script[..i + 1][..i] == script[..i];
        var status;
        match script[i] {
          case Register(handler, interval, elapsed) => status := RegisterTimer(handler, interval, elapsed);
          case Unregister(handler) => status := UnregisterTimer(handler);
        }
        i := i + 1;
      }
      assert script[..i] == script;
    }

    /** The first loop of the scan: reschedules the due entries and collects their handlers. */
    method Reschedule(now: nat) returns (toFire: seq<nat>)
      modifies `timers
      ensures timers == Refreshed(old(timers), now) && toFire == Due(old(timers), now)
    {
      toFire := [];
      var i := 0;
      while i < |timers|
        invariant i <= |timers| == |old(timers)|
        invariant forall j :: 0 <= j < i ==> timers[j] == Refreshed(old(timers), now)[j]
        invariant forall j :: i <= j < |timers| ==> timers[j] == old(timers)[j]
        invariant toFire == Due(old(timers)[..i], now)
      {
        assert old(timers)[..i + 1][..i] == old(timers)[..i];
        var t := timers[i];
        if t.next <= now {
          toFire := toFire + [t.handler];
          timers := timers[i := t.(next := AddMs(now, t.interval))];
        }
        i := i + 1;
      }
      assert old(timers)[..i] == old(timers);
    }

    method CollectDue(elapsed: nat) returns (toFire: seq<nat>)
      modifies this
      ensures Model() == Refresh(old(Model()), elapsed)
      ensures toFire == Due(old(timers), old(clock) + elapsed)
    {
      clock := clock + elapsed;
      fired := fired + Firings(timers, clock);
      wrapped := wrapped || RefreshWraps(timers, clock);
      toFire := Reschedule(clock);
    }

    /** `find_if` over the entries. */
    method IsRegistered(handler: nat) returns (found: bool)
      ensures found == Registered(timers, handler)
    {
      found := false;
      var i := 0;
      while i < |timers| && !found
        invariant i <= |timers|
        invariant found == exists j :: 0 <= j < i && timers[j].handler == handler
      {
        found := timers[i].handler == handler;
        i := i + 1;
      }
    }

    /** The second loop of the scan. */
    method FireAll(toFire: seq<nat>, scripts: seq<seq<Action>>)
      modifies this
      ensures Model() == Turns(old(Model()), toFire, scripts)
    {
      var k := 0;
      while k < |toFire|
        invariant k <= |toFire| && Model() == Turns(old(Model()), toFire[..k], scripts)
      {
        assert toFire[..k + 1][..k] == toFire[..k];
        var found := IsRegistered(toFire[k]);
        if found {
          calls := calls + [Call(toFire[k], timers)];
          OnTimer(ScriptOf(scripts, k));
        }
        k := k + 1;
      }
      assert toFire[..k] == toFire;
    }

    /** The last loop of the scan, over the entries that remain. */
    method MsUntilSoonest(elapsed2: nat) returns (wait: nat)
      modifies `clock
      ensures clock == old(clock) + elapsed2
      ensures wait == if Soonest(timers) <= clock then 0 else Soonest(timers) - clock
    {
      var soonest := NO_TIMERS;
      var i := 0;
      while i < |timers|
        invariant i <= |timers| && soonest == Soonest(timers[..i])
      {
        assert timers[..i + 1][..i] == timers[..i];
        if timers[i].next < soonest {
          soonest := timers[i].next;
        }
        i := i + 1;
      }
      assert timers[..i] == timers;
      clock := clock + elapsed2;
      return if soonest <= clock then 0 else soonest - clock;
    }

    /** The first two loops of the scan. */
    method RunDue(elapsed: nat, scripts: seq<seq<Action>>)
      requires timers != []
      modifies this
      ensures Model() == AfterTurns(old(Model()), elapsed, scripts)
    {
      ghost var w := Model();
      var toFire := CollectDue(elapsed);
      assert toFire == Due(w.timers, w.clock + elapsed);
      FireAll(toFire, scripts);
      assert Model() == Turns(Refresh(w, elapsed), toFire, scripts);
    }

    method HandleTimersAndGetNextFireMs(elapsed: nat, scripts: seq<seq<Action>>, elapsed2: nat) returns (wait: nat)
      modifies this
      ensures (Model(), wait) == Scanned(old(Model()), elapsed, scripts, elapsed2)
    {
      if timers == [] {
        return NO_TIMERS;
      }
      RunDue(elapsed, scripts);
      if timers == [] {
        return NO_TIMERS;
      }
      ghost var after := Model();
      wait := MsUntilSoonest(elapsed2);
      assert Model() == after.(clock := after.clock + elapsed2);
    }
  }
}
