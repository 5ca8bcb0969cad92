/** The bounded queue of parameter changes that editor and host push to and the audio thread drains. */
module PendingChanges {
  import opened Wrappers
  import opened Coalescing

  const PENDING_CAP: nat := 256

  /** Appends, giving up the oldest element of a full queue. */
  function PushBounded<T>(q: seq<T>, cap: nat, x: T): seq<T>
    requires cap > 0
  {
    (if |q| >= cap then q[1..] else q) + [x]
  }

  function LastN<T>(s: seq<T>, n: nat): seq<T> {
    if |s| <= n then s else s[|s| - n..]
  }

  lemma LastNIsTheEnd<T>(s: seq<T>, n: nat)
    ensures |LastN(s, n)| == Min(|s|, n) && exists before :: s == before + LastN(s, n)
  {
    assert s == s[..|s| - |LastN(s, n)|] + LastN(s, n);
  }

  lemma PushKeepsLast<T>(s: seq<T>, cap: nat, x: T)
    requires cap > 0
    ensures PushBounded(LastN(s, cap), cap, x) == LastN(s + [x], cap)
  {
  }

  // ---- Every interleaving ----

  /** A push by the editor or by the host, or an audio block whose `try_lock` succeeded or not. */
  datatype Event =
    | Push(edit: Edit)
    | Block(locked: bool)

  function Pending(events: seq<Event>): seq<Edit> {
    if events == [] then []
    else
      var k := |events| - 1;
      match events[k]
      case Push(edit) => PushBounded(Pending(events[..k]), PENDING_CAP, edit)
      case Block(locked) => if locked then [] else Pending(events[..k])
  }

  /** What block `i` hands to the plugin. */
  function Presented(events: seq<Event>, i: nat): seq<Edit>
    requires i < |events| && events[i].Block?
  {
    if events[i].locked then Pending(events[..i]) else []
  }

  function Pushes(events: seq<Event>): seq<Edit> {
    if events == [] then []
    else
      var k := |events| - 1;
      Pushes(events[..k]) + if events[k].Push? then [events[k].edit] else []
  }

  /** How many pushes came before the last successful drain. */
  function PushedBeforeDrain(events: seq<Event>): nat {
    if events == [] then 0
    else
      var k := |events| - 1;
      if events[k] == Block(true) then |Pushes(events[..k])| else PushedBeforeDrain(events[..k])
  }

  lemma {:induction false} PendingIsTheTail(events: seq<Event>)
    ensures PushedBeforeDrain(events) <= |Pushes(events)|
    ensures Pending(events) == LastN(Pushes(events)[PushedBeforeDrain(events)..], 256)
  {
    if events == [] {
    } else {
      var k := |events| - 1;
      PendingIsTheTail(events[..k]);
      var since := Pushes(events[..k])[PushedBeforeDrain(events[..k])..];
      if events[k].Push? {
        PushKeepsLast(since, PENDING_CAP, events[k].edit);
        assert Pushes(events)[PushedBeforeDrain(events)..] == since + [events[k].edit];
      }
    }
  }

  /** A successful drain presents exactly the last 256 of the changes pushed since the previous one,
      in push order; a failed `try_lock` presents nothing. */
  lemma BlockPresents(events: seq<Event>, i: nat)
    requires i < |events| && events[i].Block?
    ensures var before := events[..i];
      PushedBeforeDrain(before) <= |Pushes(before)| &&
      Presented(events, i) ==
        if events[i].locked then LastN(Pushes(before)[PushedBeforeDrain(before)..], 256) else []
  {
    PendingIsTheTail(events[..i]);
  }

  lemma {:induction false} PushesExtend(events: seq<Event>, i: nat, j: nat)
    requires i <= j <= |events|
    ensures Pushes(events[..i]) <= Pushes(events[..j])
    decreases j
  {
    if i == j {
    } else {
      PushesExtend(events, i, j - 1);
      assert events[..j][..j - 1] == events[..j - 1];
    }
  }

  lemma {:induction false} DrainRemembered(events: seq<Event>, i: nat, j: nat)
    requires i < j <= |events| && events[i] == Block(true)
    ensures |Pushes(events[..i])| <= PushedBeforeDrain(events[..j])
    decreases j
  {
    assert events[..j][..j - 1] == events[..j - 1];
    if i == j - 1 {
    } else {
      DrainRemembered(events, i, j - 1);
      PushesExtend(events, i, j - 1);
    }
  }

  /** A successful drain presents one stretch of the push sequence, the one that ends with the newest push. */
  lemma DrainWindow(events: seq<Event>, i: nat) returns (start: nat, end: nat)
    requires i < |events| && events[i] == Block(true)
    ensures PushedBeforeDrain(events[..i]) <= start <= end == |Pushes(events[..i])| <= |Pushes(events)|
    ensures Presented(events, i) == Pushes(events)[start..end]
  {
    BlockPresents(events, i);
    PushesExtend(events, i, |events|);
    assert events[..|events|] == events;
    end := |Pushes(events[..i])|;
    start := end - |Presented(events, i)|;
    assert Pushes(events[..i]) == Pushes(events)[..end];
    assert Presented(events, i) == Pushes(events[..i])[start..];
  }

  /** No push is presented twice: two successful drains present disjoint stretches of the push sequence,
      the later drain the later stretch. */
  lemma NothingPresentedTwice(events: seq<Event>, i: nat, j: nat)
    returns (iStart: nat, iEnd: nat, jStart: nat, jEnd: nat)
    requires i < j < |events| && events[i] == Block(true) && events[j] == Block(true)
    ensures iStart <= iEnd <= jStart <= jEnd <= |Pushes(events)|
    ensures Presented(events, i) == Pushes(events)[iStart..iEnd]
    ensures Presented(events, j) == Pushes(events)[jStart..jEnd]
  {
    iStart, iEnd := DrainWindow(events, i);
    jStart, jEnd := DrainWindow(events, j);
    DrainRemembered(events, i, j);
  }

  /** Whatever is presented was pushed, so a push that is not presented by the next successful drain
      has been overtaken by 256 later ones. */
  lemma LostOnlyByOverflow(events: seq<Event>, i: nat, p: nat)
    requires i < |events| && events[i] == Block(true)
    requires PushedBeforeDrain(events[..i]) <= p < |Pushes(events[..i])|
    ensures var presented, n := Presented(events, i), |Pushes(events[..i])|;
      if n - p <= 256 then n - p <= |presented| && presented[|presented| - (n - p)] == Pushes(events[..i])[p]
      else p < n - |presented|
  {
    BlockPresents(events, i);
  }

  // ---- The object ----

  /** The changes the SDK's parameter queue accepts; a refused one is skipped. */
  function Accepted(changes: seq<Edit>, accepts: nat -> bool): seq<Edit> {
    if changes == [] then []
    else
      var k := |changes| - 1;
      Accepted(changes[..k], accepts) + if accepts(changes[k].id) then [changes[k]] else []
  }

  /** Which changes the queue accepts. */
  function Flags(changes: seq<Edit>, accepts: nat -> bool): (f: seq<bool>)
    ensures |f| == |changes|
  {
    seq(|changes|, i requires 0 <= i < |changes| => accepts(changes[i].id))
  }

  /** The changes are handed over in order, each once: exactly those the queue accepts, also behind one that it
      refuses. */
  lemma {:induction false} AcceptedInOrder(changes: seq<Edit>, accepts: nat -> bool) returns (at: seq<nat>)
    ensures Filters(at, Flags(changes, accepts), changes, Accepted(changes, accepts))
  {
    if changes == [] {
      at := [];
    } else {
      var n := |changes| - 1;
      var before, x := changes[..n], changes[n];
      at := AcceptedInOrder(before, accepts);
      FiltersOneMore(at, Flags(before, accepts), before, Accepted(before, accepts), accepts(x.id), x);
      assert before + [x] == changes;
      assert Flags(before, accepts) + [accepts(x.id)] == Flags(changes, accepts);
      at := if accepts(x.id) then at + [n] else at;
    }
  }

  lemma {:induction false} AllAccepted(changes: seq<Edit>, accepts: nat -> bool)
    requires forall e :: e in changes ==> accepts(e.id)
    ensures Accepted(changes, accepts) == changes
  {
    if changes == [] {
    } else {
      var k := |changes| - 1;
      assert changes[k] in changes && forall e :: e in changes[..k] ==> e in changes;
      AllAccepted(changes[..k], accepts);
      assert changes[..k] + [changes[k]] == changes;
    }
  }

  class ActivePlugin {
    var pendingChanges: seq<Edit>
    const hasController: bool

    constructor (hasController: bool)
      ensures pendingChanges == [] && this.hasController == hasController
    {
      pendingChanges := [];
      this.hasController := hasController;
    }

    /** The audio-side push of the editor's callback. */
    method Push(edit: Edit)
      modifies this
      ensures pendingChanges == PushBounded(old(pendingChanges), 256, edit)
    {
      if |pendingChanges| >= PENDING_CAP {
        pendingChanges := pendingChanges[1..];
      }
      pendingChanges := pendingChanges + [edit];
    }

    /** The drain at the start of a block; `locked` is the outcome of `try_lock`. */
    method Drain(locked: bool, accepts: nat -> bool) returns (inputChanges: seq<Edit>)
      modifies this
      ensures inputChanges == if locked then Accepted(old(pendingChanges), accepts) else []
      ensures locked && (forall e :: e in old(pendingChanges) ==> accepts(e.id)) ==> inputChanges == old(pendingChanges)
      ensures pendingChanges == if locked then [] else old(pendingChanges)
    {
      inputChanges := [];
      if locked {
        if forall e :: e in pendingChanges ==> accepts(e.id) { AllAccepted(pendingChanges, accepts); }
        var i := 0;
        while i < |pendingChanges|
          invariant i <= |pendingChanges| && pendingChanges == old(pendingChanges)
          invariant inputChanges == Accepted(pendingChanges[..i], accepts)
        {
          var change := pendingChanges[i];
          assert pendingChanges[..i + 1][..i] == pendingChanges[..i];
          if accepts(change.id) {
            inputChanges := inputChanges + [change];
          }
          i := i + 1;
        }
        assert pendingChanges[..i] == pendingChanges;
        pendingChanges := [];
      }
    }
  }

  /** The host's own edit: clamped to the normalised range before the controller (`store`, what it keeps of
      a value) and the audio side see it; the answer is what the controller has kept, or nothing. */
  method SetParam(active: ActivePlugin?, id: nat, normalized: real, store: (nat, real) -> real)
    returns (answer: Option<real>)
    modifies active
    ensures answer.Some? <==> active != null && active.hasController
    ensures answer.Some? ==>
      exists v :: && (0.0 <= normalized <= 1.0 ==> v == normalized)
                  && (normalized < 0.0 ==> v == 0.0) && (normalized > 1.0 ==> v == 1.0)
                  && answer == Some(store(id, v))
                  && active.pendingChanges == PushBounded(old(active.pendingChanges), 256, Edit(id, v))
    ensures active != null && answer.None? ==> unchanged(active)
  {
    if active == null || !active.hasController {
      return None;
    }
    var v := normalized;
    if v < 0.0 {
      v := 0.0;
    }
    if v > 1.0 {
      v := 1.0;
    }
    var kept := store(id, v);
    active.Push(Edit(id, v));
    return Some(kept);
  }
}
