/** The coalescing filter in front of the edit queues: which edits it swallows, over whole histories. */
module Coalescing {
  const WINDOW_NS := 10_000_000
  const MEANINGFUL := 0.001

  datatype Edit = Edit(id: nat, value: real)

  datatype TimedEdit = TimedEdit(ns: int, edit: Edit)

  /** What the filter remembers about one parameter. */
  datatype FireRecord = FireRecord(ns: int, value: real)

  type Fires = map<nat, FireRecord>

  function Abs(x: real): real {
    if x < 0.0 then -x else x
  }

  predicate Swallows(fires: Fires, e: TimedEdit) {
    && e.edit.id in fires
    && e.ns - fires[e.edit.id].ns < WINDOW_NS
    && Abs(e.edit.value - fires[e.edit.id].value) < MEANINGFUL
  }

  /** A swallowed edit refreshes the value but keeps the time of the last forwarded one. */
  function Remember(fires: Fires, e: TimedEdit): Fires {
    if Swallows(fires, e)
    then fires[e.edit.id := FireRecord(fires[e.edit.id].ns, e.edit.value)]
    else fires[e.edit.id := FireRecord(e.ns, e.edit.value)]
  }

  ghost function FiresAfter(h: seq<TimedEdit>): Fires {
    if h == [] then map[] else Remember(FiresAfter(h[..|h| - 1]), h[|h| - 1])
  }

  /** The filter's decision on edit `i` of the history. */
  ghost predicate Forwarded(h: seq<TimedEdit>, i: nat)
    requires i < |h|
  {
    !Swallows(FiresAfter(h[..i]), h[i])
  }

  /** The edits of a history that get past the filter. */
  ghost function Survivors(h: seq<TimedEdit>): seq<Edit> {
    if h == [] then []
    else
      var k := |h| - 1;
      Survivors(h[..k]) + if Forwarded(h, k) then [h[k].edit] else []
  }

  // ---- The map against the history ----

  /** Edit `j` is the last one for parameter `id`. */
  ghost predicate IsLast(h: seq<TimedEdit>, id: nat, j: nat) {
    && j < |h| && h[j].edit.id == id
    && forall k :: j < k < |h| ==> h[k].edit.id != id
  }

  /** Edit `j` is the last forwarded one for parameter `id`. */
  ghost predicate IsLastForwarded(h: seq<TimedEdit>, id: nat, j: nat) {
    && j < |h| && h[j].edit.id == id && Forwarded(h, j)
    && forall k :: j < k < |h| && h[k].edit.id == id ==> !Forwarded(h, k)
  }

  lemma ForwardedIgnoresFuture(h: seq<TimedEdit>, n: nat, i: nat)
    requires i < n <= |h|
    ensures Forwarded(h[..n], i) == Forwarded(h, i)
  {
    assert h[..n][..i] == h[..i];
  }

  lemma {:induction false} LastForwardedExtends(h: seq<TimedEdit>, id: nat, j: nat)
    requires h != [] && IsLastForwarded(h[..|h| - 1], id, j)
    requires h[|h| - 1].edit.id != id || !Forwarded(h, |h| - 1)
    ensures IsLastForwarded(h, id, j)
  {
    var n := |h| - 1;
    ForwardedIgnoresFuture(h, n, j);
    forall k | j < k < |h| && h[k].edit.id == id ensures !Forwarded(h, k) {
      if k < n { ForwardedIgnoresFuture(h, n, k); }
    }
  }

  /** The map knows exactly the parameters edited so far. */
  lemma {:induction false} MapKnowsEdited(h: seq<TimedEdit>, id: nat)
    ensures id in FiresAfter(h) <==> exists i :: 0 <= i < |h| && h[i].edit.id == id
  {
    if h == [] {
    } else {
      var n := |h| - 1;
      MapKnowsEdited(h[..n], id);
      forall i | 0 <= i < n ensures h[..n][i] == h[i] { }
      if id in FiresAfter(h[..n]) {
        var i :| 0 <= i < n && h[..n][i].edit.id == id;
        assert h[i].edit.id == id;
      }
    }
  }

  /** For each, it holds the value of its last edit and the time of its last forwarded edit. */
  lemma {:induction false} MapHoldsHistory(h: seq<TimedEdit>, id: nat) returns (last: nat, sent: nat)
    requires id in FiresAfter(h)
    ensures IsLast(h, id, last) && IsLastForwarded(h, id, sent) && sent <= last
    ensures FiresAfter(h)[id] == FireRecord(h[sent].ns, h[last].edit.value)
  {
    var n := |h| - 1;
    var before := h[..n];
    if h[n].edit.id != id {
      last, sent := MapHoldsHistory(before, id);
      LastForwardedExtends(h, id, sent);
      assert h[sent] == before[sent] && h[last] == before[last];
    } else if Forwarded(h, n) {
      last, sent := n, n;
    } else {
      last, sent := MapHoldsHistory(before, id);
      LastForwardedExtends(h, id, sent);
      assert h[sent] == before[sent];
      last := n;
    }
  }

  ghost predicate Monotone(h: seq<TimedEdit>) {
    forall i, j :: 0 <= i <= j < |h| ==> h[i].ns <= h[j].ns
  }

  ghost predicate FirstOfItsKind(h: seq<TimedEdit>, i: nat)
    requires i < |h|
  {
    forall j :: 0 <= j < i ==> h[j].edit.id != h[i].edit.id
  }

  /** Every forwarded edit of the same parameter is at least the window old. */
  ghost predicate WindowPassed(h: seq<TimedEdit>, i: nat)
    requires i < |h|
  {
    forall j :: 0 <= j < i && h[j].edit.id == h[i].edit.id && Forwarded(h, j) ==> h[i].ns - h[j].ns >= 10_000_000
  }

  /** Two values at least 0.001 apart, either way. */
  predicate Apart(a: real, b: real) {
    a - b >= 0.001 || b - a >= 0.001
  }

  /** The edit differs meaningfully from the one before it of the same parameter. */
  ghost predicate Jumped(h: seq<TimedEdit>, i: nat)
    requires i < |h|
  {
    exists j: nat :: IsLast(h[..i], h[i].edit.id, j) && Apart(h[i].edit.value, h[j].edit.value)
  }

  lemma FirstIsAbsent(h: seq<TimedEdit>, i: nat)
    requires i < |h|
    ensures FirstOfItsKind(h, i) <==> h[i].edit.id !in FiresAfter(h[..i])
  {
    MapKnowsEdited(h[..i], h[i].edit.id);
    forall j | 0 <= j < i ensures h[..i][j] == h[j] { }
  }

  lemma WindowMeasured(h: seq<TimedEdit>, i: nat, sent: nat)
    requires Monotone(h) && i < |h| && IsLastForwarded(h[..i], h[i].edit.id, sent)
    ensures WindowPassed(h, i) <==> h[i].ns - h[sent].ns >= 10_000_000
  {
    var before, id := h[..i], h[i].edit.id;
    ForwardedIgnoresFuture(h, i, sent);
    assert before[sent] == h[sent];
    forall j | 0 <= j < i && h[j].edit.id == id && Forwarded(h, j) ensures h[j].ns <= h[sent].ns {
      ForwardedIgnoresFuture(h, i, j);
      assert before[j] == h[j];
      assert j <= sent;
    }
  }

  lemma JumpMeasured(h: seq<TimedEdit>, i: nat, last: nat)
    requires i < |h| && IsLast(h[..i], h[i].edit.id, last)
    ensures Jumped(h, i) <==> Apart(h[i].edit.value, h[last].edit.value)
  {
    forall j: nat | IsLast(h[..i], h[i].edit.id, j) ensures j == last { }
  }

  /** The filter in terms of the history alone, for a clock that never goes back: an edit is forwarded
      exactly if it is the first of its parameter, or every forwarded edit of that parameter is at
      least 10 ms old, or it differs from the previous edit of that parameter by at least 0.001. */
  lemma ForwardingRule(h: seq<TimedEdit>, i: nat)
    requires Monotone(h) && i < |h|
    ensures Forwarded(h, i) <==> FirstOfItsKind(h, i) || WindowPassed(h, i) || Jumped(h, i)
  {
    var before, id := h[..i], h[i].edit.id;
    FirstIsAbsent(h, i);
    if id in FiresAfter(before) {
      var last, sent := MapHoldsHistory(before, id);
      assert before[last] == h[last] && before[sent] == h[sent];
      WindowMeasured(h, i, sent);
      JumpMeasured(h, i, last);
    }
  }

  // ---- Drift ----

  /** How many edits of parameter `id` the history holds from position `from` on. */
  ghost function CountOf(h: seq<TimedEdit>, id: nat, from: nat): nat
    requires from <= |h|
  {
    if |h| == from then 0
    else
      var k := |h| - 1;
      CountOf(h[..k], id, from) + if h[k].edit.id == id then 1 else 0
  }

  predicate WithinSteps(x: real, k: nat) {
    -0.001 * (k as real) < x < 0.001 * (k as real)
  }

  lemma OneStepMore(x: real, y: real, k: nat)
    requires -0.001 < x < 0.001 && (if k == 0 then y == 0.0 else WithinSteps(y, k))
    ensures WithinSteps(x + y, k + 1)
  {
  }

  lemma LastForwardedBefore(h: seq<TimedEdit>, id: nat, sent: nat)
    requires h != [] && IsLastForwarded(h, id, sent) && sent < |h| - 1
    ensures IsLastForwarded(h[..|h| - 1], id, sent)
  {
    forall k | 0 <= k < |h| - 1 ensures Forwarded(h[..|h| - 1], k) == Forwarded(h, k) {
      ForwardedIgnoresFuture(h, |h| - 1, k);
    }
  }

  lemma SwallowedIsNear(h: seq<TimedEdit>, last: nat)
    requires h != [] && !Forwarded(h, |h| - 1) && IsLast(h[..|h| - 1], h[|h| - 1].edit.id, last)
    ensures -0.001 < h[|h| - 1].edit.value - h[last].edit.value < 0.001
  {
    var n := |h| - 1;
    var last', sent' := MapHoldsHistory(h[..n], h[n].edit.id);
    assert last' == last;
  }

  /** After `k` swallowed edits in a row, what the host has not been told is below `0.001 * k`. */
  lemma {:induction false} DriftBounded(h: seq<TimedEdit>, id: nat, sent: nat, last: nat)
    requires IsLastForwarded(h, id, sent) && IsLast(h, id, last)
    ensures var k := CountOf(h, id, sent + 1);
      if k == 0 then last == sent
      else WithinSteps(h[last].edit.value - h[sent].edit.value, k)
    decreases |h|
  {
    var n := |h| - 1;
    var before := h[..n];
    if sent == n {
    } else {
      LastForwardedBefore(h, id, sent);
      if h[n].edit.id == id {
        MapKnowsEdited(before, id);
        var last', _ := MapHoldsHistory(before, id);
        DriftBounded(before, id, sent, last');
        SwallowedIsNear(h, last');
        OneStepMore(h[n].edit.value - h[last'].edit.value, h[last'].edit.value - h[sent].edit.value,
          CountOf(before, id, sent + 1));
      } else {
        assert IsLast(before, id, last);
        DriftBounded(before, id, sent, last);
      }
    }
  }

  // ---- How often edits are forwarded ----

  /** Within the window of the last forwarded edit, an edit is forwarded exactly if it jumped. */
  lemma ForwardedInWindowExactly(h: seq<TimedEdit>, i: nat, sent: nat)
    requires Monotone(h) && i < |h| && IsLastForwarded(h[..i], h[i].edit.id, sent)
    requires h[i].ns - h[sent].ns < 10_000_000
    ensures Forwarded(h, i) <==> Jumped(h, i)
  {
    ForwardingRule(h, i);
    WindowMeasured(h, i, sent);
    assert h[..i][sent] == h[sent];
  }

  /** How many edits of `id` were forwarded, and how many of these had jumped. */
  ghost function ForwardedOf(h: seq<TimedEdit>, id: nat): nat {
    if h == [] then 0
    else
      var k := |h| - 1;
      ForwardedOf(h[..k], id) + if h[k].edit.id == id && Forwarded(h, k) then 1 else 0
  }

  ghost function JumpsOf(h: seq<TimedEdit>, id: nat): nat {
    if h == [] then 0
    else
      var k := |h| - 1;
      JumpsOf(h[..k], id) + if h[k].edit.id == id && Forwarded(h, k) && Jumped(h, k) then 1 else 0
  }

  lemma ForwardingGap(h: seq<TimedEdit>, i: nat, sent: nat)
    requires Monotone(h) && i < |h| && IsLastForwarded(h[..i], h[i].edit.id, sent) && Forwarded(h, i)
    ensures !Jumped(h, i) ==> h[i].ns - h[sent].ns >= 10_000_000
  {
    if h[i].ns - h[sent].ns < 10_000_000 {
      ForwardedInWindowExactly(h, i, sent);
    }
  }

  /** One more forwarded edit: a jump, or a window later than the previous one. */
  lemma RateStep(h: seq<TimedEdit>, id: nat, previous: nat)
    requires Monotone(h) && h != [] && h[|h| - 1].edit.id == id && Forwarded(h, |h| - 1)
    requires IsLastForwarded(h[..|h| - 1], id, previous)
    ensures var n := |h| - 1;
      && ForwardedOf(h, id) == ForwardedOf(h[..n], id) + 1
      && JumpsOf(h, id) <= JumpsOf(h[..n], id) + 1
      && h[..n][previous] == h[previous] && h[previous].ns <= h[n].ns
      && (JumpsOf(h, id) == JumpsOf(h[..n], id) ==> h[n].ns - h[previous].ns >= 10_000_000)
      && JumpsOf(h, id) >= JumpsOf(h[..n], id)
  {
    ForwardingGap(h, |h| - 1, previous);
  }

  lemma {:induction false} NoneForwarded(h: seq<TimedEdit>, id: nat)
    requires forall j :: 0 <= j < |h| ==> h[j].edit.id != id
    ensures ForwardedOf(h, id) == 0 && JumpsOf(h, id) == 0
  {
    if h != [] {
      NoneForwarded(h[..|h| - 1], id);
    }
  }

  /** The rate bound: of the forwarded edits of a parameter all but the first and those that jumped are at
      least 10 ms after the one before, so their number is limited by the time that has passed. */
  lemma {:induction false} RateBound(h: seq<TimedEdit>, id: nat, first: nat, sent: nat)
    requires Monotone(h) && IsLastForwarded(h, id, sent)
    requires first < |h| && h[first].edit.id == id && forall j :: 0 <= j < first ==> h[j].edit.id != id
    ensures ForwardedOf(h, id) >= 1
    ensures 10_000_000 * (ForwardedOf(h, id) - 1 - JumpsOf(h, id)) <= h[sent].ns - h[first].ns
    decreases |h|
  {
    var n := |h| - 1;
    var before := h[..n];
    if h[n].edit.id != id || !Forwarded(h, n) {
      LastForwardedBefore(h, id, sent);
      RateBound(before, id, first, sent);
    } else if first == n {
      NoneForwarded(before, id);
    } else {
      assert before[first] == h[first];
      MapKnowsEdited(before, id);
      var _, previous := MapHoldsHistory(before, id);
      RateBound(before, id, first, previous);
      RateStep(h, id, previous);
    }
  }

  function Knob(from: real, step: real, n: nat): real {
    if n == 0 then from else Knob(from, step, n - 1) + step
  }

  /** A knob swept in equal steps within one instant. */
  ghost function Sweep(id: nat, from: real, step: real, n: nat): (h: seq<TimedEdit>)
    ensures |h| == n + 1 && h[n] == TimedEdit(0, Edit(id, Knob(from, step, n)))
  {
    (if n == 0 then [] else Sweep(id, from, step, n - 1)) + [TimedEdit(0, Edit(id, Knob(from, step, n)))]
  }

  /** One more step of a sweep. */
  lemma SweepStep(h: seq<TimedEdit>, id: nat, value: real, step: real)
    requires FiresAfter(h) == map[id := FireRecord(0, value)]
    ensures var h' := h + [TimedEdit(0, Edit(id, value + step))];
      var forwarded := step >= 0.001 || step <= -0.001;
      && FiresAfter(h') == map[id := FireRecord(0, value + step)]
      && ForwardedOf(h', id) == ForwardedOf(h, id) + (if forwarded then 1 else 0)
      && Survivors(h') == Survivors(h) + (if forwarded then [Edit(id, value + step)] else [])
  {
    var h' := h + [TimedEdit(0, Edit(id, value + step))];
    assert h'[..|h|] == h;
    assert Forwarded(h', |h|) <==> step >= 0.001 || step <= -0.001;
  }

  lemma SweepStart(id: nat, from: real)
    ensures var h := [TimedEdit(0, Edit(id, from))];
      && FiresAfter(h) == map[id := FireRecord(0, from)]
      && ForwardedOf(h, id) == 1 && Survivors(h) == [Edit(id, from)]
  {
    var h := [TimedEdit(0, Edit(id, from))];
    assert h[..0] == [];
    assert Forwarded(h, 0);
  }

  /** There is no bound without the jumps: steps of 0.001 or more, up or down, are all forwarded, a thousand
      and more in no time. */
  lemma {:induction false} CoarseSweepIsForwarded(id: nat, from: real, step: real, n: nat)
    requires step >= 0.001 || step <= -0.001
    ensures ForwardedOf(Sweep(id, from, step, n), id) == n + 1
    ensures FiresAfter(Sweep(id, from, step, n)) == map[id := FireRecord(0, Knob(from, step, n))]
  {
    if n == 0 {
      SweepStart(id, from);
    } else {
      var before, value := Sweep(id, from, step, n - 1), Knob(from, step, n - 1);
      CoarseSweepIsForwarded(id, from, step, n - 1);
      SweepStep(before, id, value, step);
      assert Sweep(id, from, step, n) == before + [TimedEdit(0, Edit(id, value + step))];
    }
  }

  // ---- The final resting value ----

  /** The value the host was last told for `id`, if any. */
  ghost function LastHeard(survivors: seq<Edit>, id: nat): seq<real> {
    if survivors == [] then []
    else
      var k := |survivors| - 1;
      if survivors[k].id == id then [survivors[k].value] else LastHeard(survivors[..k], id)
  }

  /** The host ends up with the resting value exactly if the filter's guard lets the last edit through,
      or an earlier forwarded edit happened to have the same value. */
  lemma RestingValueHeard(h: seq<TimedEdit>, e: TimedEdit)
    ensures LastHeard(Survivors(h + [e]), e.edit.id) == [e.edit.value] <==>
      !Swallows(FiresAfter(h), e) || LastHeard(Survivors(h), e.edit.id) == [e.edit.value]
  {
    var all := h + [e];
    assert all[..|h|] == h && all[|h|] == e;
    if Swallows(FiresAfter(h), e) {
      assert !Forwarded(all, |h|);
      assert Survivors(all) == Survivors(h);
    } else {
      assert Forwarded(all, |h|);
      assert Survivors(all) == Survivors(h) + [e.edit];
    }
  }

  /** A sweep in finer steps may cover the whole normalised range, up or down: the host hears of its start and
      nothing else, so the resting value is lost however far it is from the value last heard. */
  lemma {:induction false} SweepIsSwallowed(id: nat, from: real, step: real, n: nat)
    requires -0.001 < step < 0.001
    ensures FiresAfter(Sweep(id, from, step, n)) == map[id := FireRecord(0, Knob(from, step, n))]
    ensures Survivors(Sweep(id, from, step, n)) == [Edit(id, from)]
  {
    if n == 0 {
      SweepStart(id, from);
    } else {
      var before, value := Sweep(id, from, step, n - 1), Knob(from, step, n - 1);
      SweepIsSwallowed(id, from, step, n - 1);
      SweepStep(before, id, value, step);
      assert Sweep(id, from, step, n) == before + [TimedEdit(0, Edit(id, value + step))];
    }
  }
}
