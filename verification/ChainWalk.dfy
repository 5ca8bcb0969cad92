/** The audio thread's walk while the control thread stores: every load reads the slots as some store left
    them, and between two loads any number of stores may happen. */
module ChainWalk {
  import opened Wrappers
  import opened ChainSpec
  import opened SlotLifecycle
  import opened PluginChain

  /** A callback change, slot after slot: those before `done` have the new callback. */
  function Installing(base: seq<Slot>, cb: Option<nat>, done: nat): (r: seq<Slot>)
    ensures InstalledUpTo(r, base, cb, done)
  {
    seq(|base|, i requires 0 <= i < |base| => if i < done then Installed(base[i], i, cb) else base[i])
  }

  predicate Eights(h: seq<seq<Slot>>) {
    forall t :: 0 <= t < |h| ==> |h[t]| == MAX_SLOTS
  }

  /** All slots after each store of an operation. */
  function Snapshots(c: ChainState, op: Op): (h: seq<seq<Slot>>)
    requires |c.slots| == MAX_SLOTS
    ensures Eights(h)
  {
    match op
    case SetCallback(cb) => seq(MAX_SLOTS, i requires 0 <= i => Installing(c.slots, cb, i + 1))
    case SetEnabled(_) => []
    case _ => if InRange(op.slot) then Writes(c.slots, op.slot, SlotStores(c, op, op.slot)) else []
  }

  /** All slots at the start and after each store of a series of operations on a fresh chain. */
  function History(ops: seq<Op>): (h: seq<seq<Slot>>)
    ensures h != [] && Eights(h)
  {
    if ops == [] then [Fresh().slots]
    else
      var k := |ops| - 1;
      History(ops[..k]) + Snapshots(SlotLifecycle.Run(Fresh(), ops[..k]), ops[k])
  }

  /** When a slot's turn of the walk made its loads: as positions in the history. */
  datatype Turn = Turn(loaded: nat, bypass: nat, format: nat, pointer: nat)

  /** The loads of a walk happen in program order. */
  ghost predicate InOrder(turns: seq<Turn>, h: seq<seq<Slot>>) {
    && |turns| == MAX_SLOTS
    && (forall i :: 0 <= i < MAX_SLOTS ==>
          turns[i].loaded <= turns[i].bypass <= turns[i].format <= turns[i].pointer < |h|)
    && (forall i, j :: 0 <= i < j < MAX_SLOTS ==> turns[i].pointer <= turns[j].loaded)
  }

  /** What the loads of slot `i`'s turn returned. */
  ghost function Seen(h: seq<seq<Slot>>, t: Turn, i: nat): Slot
    requires t.loaded < |h| && t.bypass < |h| && t.format < |h| && t.pointer < |h|
    requires Eights(h) && i < MAX_SLOTS
  {
    var p := h[t.pointer][i];
    Slot(h[t.loaded][i].loaded, h[t.bypass][i].bypass, h[t.format][i].format, p.vst3, p.vst2, p.clap)
  }

  ghost function Walk(h: seq<seq<Slot>>, turns: seq<Turn>): (r: seq<Slot>)
    requires Eights(h) && InOrder(turns, h)
    ensures |r| == MAX_SLOTS
  {
    seq(MAX_SLOTS, i requires 0 <= i < MAX_SLOTS => Seen(h, turns[i], i))
  }

  // ---- What every store leaves ----

  /** Coherent, and only the pointer that the format names is set while the slot says it is loaded. */
  ghost predicate Clean(s: Slot) {
    Coherent(s) && (s.loaded ==> forall f: Format :: s.Pointer(f).Some? ==> f == s.format)
  }

  ghost predicate AllClean(slots: seq<Slot>) {
    |slots| == MAX_SLOTS && forall i :: 0 <= i < MAX_SLOTS ==> Clean(slots[i])
  }

  lemma SettledClean(c: ChainState, i: nat)
    requires AllSettled(c) && i < MAX_SLOTS
    ensures Clean(c.slots[i])
  {
    assert Settled(c.slots[i], i, c.callback);
  }

  lemma InstalledClean(c: ChainState, i: nat, cb: Option<nat>)
    requires AllSettled(c) && i < MAX_SLOTS
    ensures Clean(Installed(c.slots[i], i, cb))
  {
    assert Settled(c.slots[i], i, c.callback);
    InstallKeepsPointers(c.slots[i], i, c.callback, cb);
  }

  lemma BuildClean(s: Slot, slot: nat, f: Format, ok: bool, id: nat, cb: Option<nat>)
    requires s == EMPTY_SLOT.(bypass := s.bypass)
    ensures forall b :: b in BuildStores(s, slot, f, ok, id, cb) ==> Clean(b)
  {
    BuildCoherent(s, slot, f, ok, id, cb);
  }

  lemma LoadClean(s: Slot, slot: nat, f: Format, ok: bool, id: nat, cb: Option<nat>)
    requires Settled(s, slot, cb)
    ensures forall b :: b in LoadStores(s, slot, f, ok, id, cb) ==> Clean(b)
  {
    TearDownCoherent(s, slot, cb);
    BuildClean(Last(UnloadStores(s)), slot, f, ok, id, cb);
  }

  lemma StoresClean(c: ChainState, op: Op, i: nat, k: nat)
    requires AllSettled(c) && i < MAX_SLOTS && k < |SlotStores(c, op, i)|
    ensures Clean(SlotStores(c, op, i)[k])
  {
    var s := c.slots[i];
    assert Settled(s, i, c.callback);
    match op
    case Load(_, f, ok) => LoadClean(s, i, f, ok, c.nextId, c.callback);
    case Unload(_) => TearDownCoherent(s, i, c.callback);
    case SetCallback(cb) => InstalledClean(c, i, cb);
    case SetBypass(_, b) => assert forall f: Format :: s.(bypass := b).Pointer(f) == s.Pointer(f);
    case SetEnabled(_) =>
  }

  lemma InstallingClean(c: ChainState, cb: Option<nat>, done: nat)
    requires AllSettled(c)
    ensures AllClean(Installing(c.slots, cb, done))
  {
    forall i: nat | i < MAX_SLOTS ensures Clean(Installing(c.slots, cb, done)[i]) {
      SettledClean(c, i);
      InstalledClean(c, i, cb);
    }
  }

  lemma WritesClean(c: ChainState, op: Op, i: nat, t: nat)
    requires AllSettled(c) && i < MAX_SLOTS && t < |SlotStores(c, op, i)|
    ensures AllClean(c.slots[i := SlotStores(c, op, i)[t]])
  {
    StoresClean(c, op, i, t);
    forall j: nat | j < MAX_SLOTS && j != i ensures Clean(c.slots[j]) {
      SettledClean(c, j);
    }
  }

  lemma SnapshotsClean(c: ChainState, op: Op, t: nat)
    requires AllSettled(c) && t < |Snapshots(c, op)|
    ensures AllClean(Snapshots(c, op)[t])
  {
    match op
    case SetCallback(cb) => InstallingClean(c, cb, t + 1);
    case SetEnabled(_) => assert false;
    case _ => WritesClean(c, op, op.slot, t);
  }

  /** Whatever the control thread did: at no store does a slot say it is loaded unless its instance is. */
  lemma {:induction false} HistoryClean(ops: seq<Op>)
    ensures forall t :: 0 <= t < |History(ops)| ==> AllClean(History(ops)[t])
  {
    if ops == [] {
      assert Clean(EMPTY_SLOT);
    } else {
      var k := |ops| - 1;
      var c := SlotLifecycle.Run(Fresh(), ops[..k]);
      HistoryClean(ops[..k]);
      EveryRunSettled(ops[..k]);
      forall t | 0 <= t < |Snapshots(c, ops[k])| ensures AllClean(Snapshots(c, ops[k])[t]) {
        SnapshotsClean(c, ops[k], t);
      }
    }
  }

  lemma SnapshotsEnd(c: ChainState, op: Op)
    requires |c.slots| == MAX_SLOTS
    ensures After(c, op).slots == if Snapshots(c, op) == [] then c.slots else Last(Snapshots(c, op))
  {
    match op
    case SetCallback(cb) => assert After(c, op).slots == Installing(c.slots, cb, MAX_SLOTS);
    case SetEnabled(_) =>
    case _ =>
      if InRange(op.slot) {
        StoresReachAfter(c, op, op.slot);
        assert SlotStores(c, op, op.slot) != [];
      }
  }

  /** When the control thread is between operations, the slots are as the operations leave them. */
  lemma {:induction false} HistoryEnds(ops: seq<Op>)
    ensures Last(History(ops)) == SlotLifecycle.Run(Fresh(), ops).slots
  {
    if ops == [] {
    } else {
      var k := |ops| - 1;
      HistoryEnds(ops[..k]);
      SnapshotsEnd(SlotLifecycle.Run(Fresh(), ops[..k]), ops[k]);
    }
  }

  lemma SnapshotClean(ops: seq<Op>, t: nat)
    requires t < |History(ops)|
    ensures AllClean(History(ops)[t])
    ensures t == |History(ops)| - 1 ==> History(ops)[t] == SlotLifecycle.Run(Fresh(), ops).slots
  {
    HistoryClean(ops);
    HistoryEnds(ops);
  }

  // ---- What a walk runs ----

  /** In every interleaving: an instance the walk runs in slot `i` was in that slot when its pointer was
      loaded, and was loaded completely if the slot still said so then. */
  lemma WalkRunsWhatWasThere(ops: seq<Op>, turns: seq<Turn>, i: nat, p: nat)
    requires InOrder(turns, History(ops)) && i < MAX_SLOTS
    requires Views(Walk(History(ops), turns))[i] == View.Run(p)
    ensures var h := History(ops);
      var there := h[turns[i].pointer][i];
      && h[turns[i].loaded][i].loaded && !h[turns[i].bypass][i].bypass
      && exists f: Format :: there.Pointer(f).Some? && there.Pointer(f).value.id == p
           && (there.loaded ==> there.format == f && there.Pointer(f).value.ready)
  {
    HistoryClean(ops);
    var h := History(ops);
    var seen, there := Seen(h, turns[i], i), h[turns[i].pointer][i];
    assert seen.Pointer(seen.format) == there.Pointer(seen.format);
    assert Clean(there);
  }

  /** The instances of the loaded, unbypassed slots, in index order. */
  function Playing(slots: seq<Slot>): seq<View> {
    if slots == [] then []
    else
      var k := |slots| - 1;
      var s := slots[k];
      Playing(slots[..k]) +
        if s.loaded && !s.bypass && s.Pointer(s.format).Some? then [View.Run(s.Pointer(s.format).value.id)] else []
  }

  lemma {:induction false} ActiveIsPlaying(slots: seq<Slot>)
    ensures Active(Views(slots)) == Playing(slots)
  {
    if slots == [] {
    } else {
      var k := |slots| - 1;
      ActiveIsPlaying(slots[..k]);
      assert Views(slots)[..k] == Views(slots[..k]);
    }
  }

  /** Loads between which nothing is stored read one snapshot. */
  lemma OneSnapshot(h: seq<seq<Slot>>, turns: seq<Turn>)
    requires Eights(h) && InOrder(turns, h) && turns[0].loaded == turns[MAX_SLOTS - 1].pointer
    ensures Walk(h, turns) == h[turns[0].loaded]
  {
    var t := turns[0].loaded;
    forall i: nat | i < MAX_SLOTS ensures Walk(h, turns)[i] == h[t][i] {
      assert t <= turns[i].loaded && turns[i].pointer <= t;
    }
  }

  lemma OneSnapshotFold<D>(plug: Plugins<D>, h: seq<seq<Slot>>, turns: seq<Turn>, d: D, x: Samples)
    requires Eights(h) && InOrder(turns, h) && turns[0].loaded == turns[MAX_SLOTS - 1].pointer
    ensures Fold(plug, Views(Walk(h, turns)), d, x) == Fold(plug, Playing(h[turns[0].loaded]), d, x)
  {
    var slots := h[turns[0].loaded];
    OneSnapshot(h, turns);
    SkippedSlotsVanish(plug, Views(slots), d, x);
    ActiveIsPlaying(slots);
  }

  /** A walk during which nothing is stored, after any series of operations or in the middle of one, puts the
      block through the instances of exactly the loaded, unbypassed slots, one after the other; each of
      these slots has its instance, completely loaded. Between operations, these are the slots as the
      operations leave them. */
  lemma UndisturbedWalk<D>(plug: Plugins<D>, ops: seq<Op>, turns: seq<Turn>, d: D, x: Samples)
    requires InOrder(turns, History(ops)) && turns[0].loaded == turns[MAX_SLOTS - 1].pointer
    ensures var h := History(ops);
      var slots := h[turns[0].loaded];
      && Fold(plug, Views(Walk(h, turns)), d, x) == Fold(plug, Playing(slots), d, x)
      && AllClean(slots)
      && (turns[0].loaded == |h| - 1 ==> slots == SlotLifecycle.Run(Fresh(), ops).slots)
  {
    OneSnapshotFold(plug, History(ops), turns, d, x);
    SnapshotClean(ops, turns[0].loaded);
  }
}
