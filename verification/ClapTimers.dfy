/** The timer registry a CLAP host offers its plugins: ids are handed out from a 32-bit counter. */
module ClapTimers {
  import opened Bits
  import opened Wrappers

  const MIN_PERIOD: nat := 16

  /** `owner` is the instance that registered the timer, `ordinal` how many registrations came before
      it; no decision reads either. */
  datatype Timer = Timer(id: nat, period: nat, owner: nat, ordinal: nat)

  /** A call of the timer-support extension, by any instance at any time. */
  datatype TimerCall = Register(owner: nat, period: nat) | Unregister(id: nat)

  /** The registered timers and the counter; `issued` counts the registrations without a bound. */
  datatype Registry = Registry(timers: seq<Timer>, next: nat, issued: nat)

  function Blank(): Registry {
    Registry([], 1, 0)
  }

  function Cleared(r: Registry): Registry {
    r.(timers := [])
  }

  function AtLeastMinimum(period: nat): nat {
    if period < MIN_PERIOD then MIN_PERIOD else period
  }

  /** The first timer with that id goes. */
  function WithoutTimer(timers: seq<Timer>, id: nat): seq<Timer> {
    if timers == [] then []
    else if timers[0].id == id then timers[1..]
    else [timers[0]] + WithoutTimer(timers[1..], id)
  }

  function PerformOne(r: Registry, c: TimerCall): Registry {
    match c
    case Register(owner, period) =>
      Registry(r.timers + [Timer(r.next, AtLeastMinimum(period), owner, r.issued)], (r.next + 1) % WORD32, r.issued + 1)
    case Unregister(id) => r.(timers := WithoutTimer(r.timers, id))
  }

  function Perform(r: Registry, calls: seq<TimerCall>): Registry {
    if calls == [] then r else PerformOne(Perform(r, calls[..|calls| - 1]), calls[|calls| - 1])
  }

  lemma {:induction false} PerformAppends(r: Registry, a: seq<TimerCall>, b: seq<TimerCall>)
    ensures Perform(r, a + b) == Perform(Perform(r, a), b)
  {
    if b == [] {
      assert a + b == a;
    } else {
      var k := |b| - 1;
      PerformAppends(r, a, b[..k]);
      assert (a + b)[..|a| + k] == a + b[..k];
    }
  }

  // ---- What every registry keeps ----

  /** The id the counter gives to the registration after `ordinal` others. */
  function IdOf(ordinal: nat): nat {
    (ordinal + 1) % WORD32
  }

  ghost predicate Ordered(timers: seq<Timer>) {
    forall i, j :: 0 <= i < j < |timers| ==> timers[i].ordinal < timers[j].ordinal
  }

  ghost predicate Ok(r: Registry) {
    && r.next == IdOf(r.issued)
    && (forall t :: t in r.timers ==> t.ordinal < r.issued && t.id == IdOf(t.ordinal) && t.period >= MIN_PERIOD)
    && Ordered(r.timers)
  }

  lemma {:induction false} WithoutTimerSubset(timers: seq<Timer>, id: nat, t: Timer)
    requires t in WithoutTimer(timers, id)
    ensures t in timers
  {
    if timers != [] && timers[0].id != id && t != timers[0] {
      WithoutTimerSubset(timers[1..], id, t);
    }
  }

  lemma {:induction false} WithoutTimerOrdered(timers: seq<Timer>, id: nat)
    requires Ordered(timers)
    ensures Ordered(WithoutTimer(timers, id))
  {
    if timers != [] && timers[0].id != id {
      var rest := WithoutTimer(timers[1..], id);
      WithoutTimerOrdered(timers[1..], id);
      forall j | 0 <= j < |rest| ensures timers[0].ordinal < rest[j].ordinal {
        WithoutTimerSubset(timers[1..], id, rest[j]);
      }
    }
  }

  lemma NextIdFollows(issued: nat)
    ensures (IdOf(issued) + 1) % WORD32 == IdOf(issued + 1)
  {
    var q := (issued + 1) / WORD32;
    assert issued + 1 == WORD32 * q + IdOf(issued);
    if IdOf(issued) + 1 < WORD32 {
      DivModUnique(issued + 2, WORD32, q, IdOf(issued) + 1);
      DivModUnique(IdOf(issued) + 1, WORD32, 0, IdOf(issued) + 1);
    } else {
      DivModUnique(issued + 2, WORD32, q + 1, 0);
      DivModUnique(IdOf(issued) + 1, WORD32, 1, 0);
    }
  }

  lemma RegisterKeeps(r: Registry, owner: nat, period: nat)
    requires Ok(r)
    ensures Ok(PerformOne(r, Register(owner, period)))
  {
    NextIdFollows(r.issued);
    var r' := PerformOne(r, Register(owner, period));
    forall j | 0 <= j < |r.timers| ensures r'.timers[j].ordinal < r.issued {
      assert r.timers[j] in r.timers;
    }
  }

  lemma PerformOneKeeps(r: Registry, c: TimerCall)
    requires Ok(r)
    ensures Ok(PerformOne(r, c))
  {
    match c
    case Register(owner, period) => RegisterKeeps(r, owner, period);
    case Unregister(id) =>
      WithoutTimerOrdered(r.timers, id);
      forall t | t in WithoutTimer(r.timers, id) ensures t in r.timers { WithoutTimerSubset(r.timers, id, t); }
  }

  lemma {:induction false} PerformKeeps(r: Registry, calls: seq<TimerCall>)
    requires Ok(r)
    ensures Ok(Perform(r, calls))
  {
    if calls == [] {
    } else {
      PerformKeeps(r, calls[..|calls| - 1]);
      PerformOneKeeps(Perform(r, calls[..|calls| - 1]), calls[|calls| - 1]);
    }
  }

  // ---- Distinct ids ----

  ghost predicate DistinctIds(r: Registry) {
    forall i, j :: 0 <= i < j < |r.timers| ==> r.timers[i].id != r.timers[j].id
  }

  lemma SameIdExactly(a: nat, b: nat)
    requires a <= b
    ensures IdOf(a) == IdOf(b) <==> (b - a) % WORD32 == 0
  {
    var p, q := (a + 1) / WORD32, (b + 1) / WORD32;
    assert a + 1 == WORD32 * p + IdOf(a) && b + 1 == WORD32 * q + IdOf(b);
    assert b - a == WORD32 * (q - p) + (IdOf(b) - IdOf(a));
    if IdOf(b) >= IdOf(a) {
      DivModUnique(b - a, WORD32, q - p, IdOf(b) - IdOf(a));
    } else {
      DivModUnique(b - a, WORD32, q - p - 1, IdOf(b) - IdOf(a) + WORD32);
    }
  }

  /** No two registered timers are a multiple of 2^32 registrations apart. */
  ghost predicate NoFullTurn(r: Registry)
    requires Ordered(r.timers)
  {
    forall i, j :: 0 <= i < j < |r.timers| ==> (r.timers[j].ordinal - r.timers[i].ordinal) % WORD32 != 0
  }

  /** Registered ids are distinct exactly if no two registered timers are a multiple of 2^32
      registrations apart. */
  lemma IdsDistinctExactly(r: Registry)
    requires Ok(r)
    ensures DistinctIds(r) <==> NoFullTurn(r)
  {
    forall i, j | 0 <= i < j < |r.timers|
      ensures r.timers[i].id == r.timers[j].id <==> (r.timers[j].ordinal - r.timers[i].ordinal) % WORD32 == 0
    {
      assert r.timers[i] in r.timers && r.timers[j] in r.timers;
      SameIdExactly(r.timers[i].ordinal, r.timers[j].ordinal);
    }
  }

  /** A registration keeps them distinct exactly if the counter does not stand at a registered id. */
  lemma RegisterKeepsDistinct(r: Registry, owner: nat, period: nat)
    requires Ok(r) && DistinctIds(r)
    ensures DistinctIds(PerformOne(r, Register(owner, period))) <==> forall t :: t in r.timers ==> t.id != r.next
  {
    var r' := PerformOne(r, Register(owner, period));
    if t :| t in r.timers && t.id == r.next {
      var i :| 0 <= i < |r.timers| && r.timers[i] == t;
      assert r'.timers[i].id == r'.timers[|r.timers|].id;
    }
  }

  /** After `n` more registrations every timer registered now is still among the last 2^32. */
  ghost predicate Recent(r: Registry, n: nat) {
    forall t :: t in r.timers ==> r.issued + n <= t.ordinal + WORD32
  }

  lemma RecentDistinct(r: Registry)
    requires Ok(r) && Recent(r, 0)
    ensures DistinctIds(r)
  {
    forall i, j | 0 <= i < j < |r.timers| ensures (r.timers[j].ordinal - r.timers[i].ordinal) % WORD32 != 0 {
      assert r.timers[i] in r.timers && r.timers[j] in r.timers;
      var d := r.timers[j].ordinal - r.timers[i].ordinal;
      DivModUnique(d, WORD32, 0, d);
    }
    IdsDistinctExactly(r);
  }

  /** With distinct ids, unregistering removes exactly the timer that was given the id. */
  lemma {:induction false} UnregisterExact(timers: seq<Timer>, id: nat, t: Timer)
    requires forall i, j :: 0 <= i < j < |timers| ==> timers[i].id != timers[j].id
    ensures t in WithoutTimer(timers, id) <==> t in timers && t.id != id
  {
    if timers == [] {
    } else {
      assert timers == [timers[0]] + timers[1..];
      if timers[0].id == id {
        forall i | 0 <= i < |timers[1..]| ensures timers[1..][i].id != id { }
      } else {
        UnregisterExact(timers[1..], id, t);
      }
    }
  }

  /** `n` times: register a timer and unregister it again, from the counter's `ordinal`-th registration on. */
  function Churn(ordinal: nat, n: nat): seq<TimerCall> {
    if n == 0 then []
    else Churn(ordinal, n - 1) + [Register(0, MIN_PERIOD)] + [Unregister(IdOf(ordinal + n - 1))]
  }

  lemma OneCall(r: Registry, c: TimerCall)
    ensures Perform(r, [c]) == PerformOne(r, c)
  {
    assert [c][..0] == [];
  }

  lemma {:induction false} ChurnLeaves(r: Registry, t: Timer, n: nat)
    requires Ok(r) && r.timers == [t] && r.issued == t.ordinal + 1 && n < WORD32
    ensures Perform(r, Churn(r.issued, n)).timers == [t] && Perform(r, Churn(r.issued, n)).issued == r.issued + n
    ensures Ok(Perform(r, Churn(r.issued, n)))
  {
    if n == 0 {
    } else {
      var before := Churn(r.issued, n - 1);
      ChurnLeaves(r, t, n - 1);
      var p := Perform(r, before);
      var there, back := Register(0, MIN_PERIOD), Unregister(IdOf(p.issued));
      PerformAppends(r, before, [there]);
      PerformAppends(r, before + [there], [back]);
      OneCall(p, there);
      OneCall(PerformOne(p, there), back);
      PerformOneKeeps(p, there);
      PerformOneKeeps(PerformOne(p, there), back);
      SameIdExactly(t.ordinal, p.issued);
      DivModUnique(n, WORD32, 0, n);
      var added := Timer(p.next, MIN_PERIOD, 0, p.issued);
      assert [t, added][1..] == [added] && [added][1..] == [];
      assert WithoutTimer([added], added.id) == [];
    }
  }

  /** The counter does come around: a timer kept while 2^32 - 1 others are registered and unregistered
      shares its id with the next one. */
  lemma IdsCanCollide() returns (calls: seq<TimerCall>)
    ensures Ok(Perform(Blank(), calls)) && !DistinctIds(Perform(Blank(), calls))
  {
    var kept, n := Register(0, MIN_PERIOD), WORD32 - 1;
    var first := PerformOne(Blank(), kept);
    var t := first.timers[0];
    OneCall(Blank(), kept);
    PerformOneKeeps(Blank(), kept);
    ChurnLeaves(first, t, n);
    var p := Perform(first, Churn(1, n));
    PerformAppends(Blank(), [kept], Churn(1, n));
    PerformAppends(Blank(), [kept] + Churn(1, n), [kept]);
    OneCall(p, kept);
    PerformOneKeeps(p, kept);
    SameIdExactly(0, WORD32);
    DivModUnique(WORD32, WORD32, 1, 0);
    var r := PerformOne(p, kept);
    assert r.timers[0].id == r.timers[1].id;
    calls := [kept] + Churn(1, n) + [kept];
  }

  // ---- What a stretch of timer calls leaves registered ----

  function Registrations(calls: seq<TimerCall>): nat {
    if calls == [] then 0
    else Registrations(calls[..|calls| - 1]) + if calls[|calls| - 1].Register? then 1 else 0
  }

  /** The timer that call `i` registers. */
  function Issue(r: Registry, calls: seq<TimerCall>, i: nat): Timer
    requires i < |calls| && calls[i].Register?
  {
    var ordinal := r.issued + Registrations(calls[..i]);
    Timer(IdOf(ordinal), if calls[i].period < 16 then 16 else calls[i].period, calls[i].owner, ordinal)
  }

  ghost predicate IssuedAndKept(r: Registry, calls: seq<TimerCall>, t: Timer, i: nat)
    requires i < |calls|
  {
    calls[i].Register? && Issue(r, calls, i) == t && Unregister(t.id) !in calls[i + 1..]
  }

  /** In terms of the calls alone: the timer was there before and nobody unregistered it, or one of the
      calls registered it and no later one unregistered it. */
  ghost predicate Remains(r: Registry, calls: seq<TimerCall>, t: Timer) {
    || (t in r.timers && Unregister(t.id) !in calls)
    || (exists i :: 0 <= i < |calls| && IssuedAndKept(r, calls, t, i))
  }

  lemma {:induction false} PerformIssues(r: Registry, calls: seq<TimerCall>)
    ensures Perform(r, calls).issued == r.issued + Registrations(calls) <= r.issued + |calls|
  {
    if calls == [] {
    } else {
      PerformIssues(r, calls[..|calls| - 1]);
    }
  }

  lemma {:induction false} OldOrNew(r: Registry, calls: seq<TimerCall>, t: Timer)
    requires t in Perform(r, calls).timers
    ensures t in r.timers || t.ordinal >= r.issued
  {
    if calls == [] {
    } else {
      var k := |calls| - 1;
      var before := Perform(r, calls[..k]);
      PerformIssues(r, calls[..k]);
      if calls[k].Unregister? { WithoutTimerSubset(before.timers, calls[k].id, t); }
      if t in before.timers { OldOrNew(r, calls[..k], t); }
    }
  }

  lemma StaysDistinct(r: Registry, calls: seq<TimerCall>)
    requires Ok(r) && Recent(r, |calls|) && |calls| <= WORD32
    ensures Ok(Perform(r, calls)) && DistinctIds(Perform(r, calls))
  {
    var p := Perform(r, calls);
    PerformKeeps(r, calls);
    PerformIssues(r, calls);
    forall t | t in p.timers ensures p.issued <= t.ordinal + WORD32 { OldOrNew(r, calls, t); }
    RecentDistinct(p);
  }

  lemma KeptExtends(r: Registry, before: seq<TimerCall>, c: TimerCall, t: Timer, i: nat)
    requires i < |before|
    ensures IssuedAndKept(r, before + [c], t, i) <==> IssuedAndKept(r, before, t, i) && c != Unregister(t.id)
  {
    assert (before + [c])[..i] == before[..i];
    assert (before + [c])[i + 1..] == before[i + 1..] + [c];
  }

  lemma RemainsExtends(r: Registry, before: seq<TimerCall>, c: TimerCall, t: Timer)
    ensures Remains(r, before + [c], t) <==>
      || (Remains(r, before, t) && c != Unregister(t.id))
      || (c.Register? && Issue(r, before + [c], |before|) == t)
  {
    var calls, k := before + [c], |before|;
    forall i | 0 <= i < k
      ensures IssuedAndKept(r, calls, t, i) <==> IssuedAndKept(r, before, t, i) && c != Unregister(t.id)
    {
      KeptExtends(r, before, c, t, i);
    }
    assert calls[k + 1..] == [];
    assert c.Register? && Issue(r, calls, k) == t ==> IssuedAndKept(r, calls, t, k);
  }

  /** Exactly the remaining timers are registered afterwards. */
  lemma {:induction false} RemainingExactly(r: Registry, calls: seq<TimerCall>, t: Timer)
    requires Ok(r) && Recent(r, |calls|) && |calls| <= WORD32
    ensures t in Perform(r, calls).timers <==> Remains(r, calls, t)
  {
    if calls == [] {
    } else {
      var k := |calls| - 1;
      var before, c := calls[..k], calls[k];
      assert calls == before + [c];
      RemainingExactly(r, before, t);
      RemainsExtends(r, before, c, t);
      StaysDistinct(r, before);
      match c {
        case Register(owner, period) =>
          PerformIssues(r, before);
          assert calls[..k] == before;
        case Unregister(id) => UnregisterExact(Perform(r, before).timers, id, t);
      }
    }
  }

  // ---- Stale timers ----

  ghost predicate AllOwned(r: Registry, owner: Option<nat>) {
    forall t :: t in r.timers ==> owner == Some(t.owner)
  }

  /** Every timer somebody else had registered before is unregistered by one of the calls. */
  ghost predicate OthersGone(r: Registry, calls: seq<TimerCall>, owner: Option<nat>) {
    forall t :: t in r.timers && owner != Some(t.owner) ==> Unregister(t.id) in calls
  }

  /** Every registration by somebody else is undone by a later one of the calls. */
  ghost predicate OthersUndone(r: Registry, calls: seq<TimerCall>, owner: Option<nat>) {
    forall i :: 0 <= i < |calls| && calls[i].Register? && owner != Some(calls[i].owner) ==>
      Unregister(Issue(r, calls, i).id) in calls[i + 1..]
  }

  lemma OwnedExactly(r: Registry, calls: seq<TimerCall>, owner: Option<nat>)
    requires Ok(r) && Recent(r, |calls|) && |calls| <= WORD32
    ensures AllOwned(Perform(r, calls), owner) <==> OthersGone(r, calls, owner) && OthersUndone(r, calls, owner)
  {
    forall t ensures t in Perform(r, calls).timers <==> Remains(r, calls, t) {
      RemainingExactly(r, calls, t);
    }
    if OthersGone(r, calls, owner) && OthersUndone(r, calls, owner) {
      forall t | Remains(r, calls, t) ensures owner == Some(t.owner) { }
    } else if !OthersGone(r, calls, owner) {
      var t :| t in r.timers && owner != Some(t.owner) && Unregister(t.id) !in calls;
      assert Remains(r, calls, t);
    } else {
      var i :| 0 <= i < |calls| && calls[i].Register? && owner != Some(calls[i].owner) &&
        Unregister(Issue(r, calls, i).id) !in calls[i + 1..];
      assert IssuedAndKept(r, calls, Issue(r, calls, i), i);
      assert Remains(r, calls, Issue(r, calls, i));
    }
  }
}
