/** The control thread's side of the eight-slot plugin chain: loading and unloading slots and
    routing the parameter callback. Every operation is described by the states its individual
    stores pass through, because the audio thread may observe any of them. */
module SlotLifecycle {
  import opened Wrappers
  import opened ChainSpec

  const MAX_SLOTS: nat := 8

  datatype Format = Empty | Vst3 | Vst2 | Clap

  /** The closure installed on a plugin: the chain callback with a slot index captured. */
  datatype Wrapped = Wrapped(callback: nat, slot: nat)

  /** A plugin instance. `ready` holds from a successful `Load` until `Unload`. */
  datatype Instance = Instance(id: nat, ready: bool, callback: Option<Wrapped>)

  /** The entries of the parallel arrays that belong to one slot. */
  datatype Slot = Slot(
    loaded: bool, bypass: bool, format: Format,
    vst3: Option<Instance>, vst2: Option<Instance>, clap: Option<Instance>)
  {
    function Pointer(f: Format): Option<Instance> {
      match f
      case Vst3 => vst3
      case Vst2 => vst2
      case Clap => clap
      case Empty => None
    }

    function WithPointer(f: Format, p: Option<Instance>): Slot {
      match f
      case Vst3 => this.(vst3 := p)
      case Vst2 => this.(vst2 := p)
      case Clap => this.(clap := p)
      case Empty => this
    }

    /** What `Process` does with these values of `loaded_`, `bypass_`, `format_` and the pointers. */
    function View(): View {
      if loaded && !bypass && Pointer(format).Some? then Run(Pointer(format).value.id) else Skip
    }
  }

  /** Everything the control thread shares with the audio thread. */
  datatype ChainState = ChainState(slots: seq<Slot>, enabled: bool, callback: Option<nat>, nextId: nat)

  // ---- The control thread's operations as the sequence of states their stores pass through ----

  datatype Op =
    | Load(slot: int, detected: Format, succeeds: bool)
    | Unload(slot: int)
    | SetCallback(cb: Option<nat>)
    | SetBypass(slot: int, bypass: bool)
    | SetEnabled(enabled: bool)

  predicate InRange(slot: int) {
    0 <= slot < MAX_SLOTS
  }

  function Last<T>(s: seq<T>): T
    requires s != []
  {
    s[|s| - 1]
  }

  /** The stores of tearing a slot down: the instance is unloaded, its pointer reset, the format cleared. */
  function TearDownStores(s: Slot): (r: seq<Slot>)
    ensures r != []
  {
    var p := s.Pointer(s.format);
    if p.Some? then
      var s1 := s.WithPointer(s.format, Some(p.value.(ready := false)));
      var s2 := s1.WithPointer(s.format, None);
      [s1, s2, s2.(format := Empty)]
    else [s.(format := Empty)]
  }

  function UnloadStores(s: Slot): (r: seq<Slot>)
    ensures r != []
  {
    var s0 := s.(loaded := false);
    [s0] + TearDownStores(s0)
  }

  function Wrap(cb: Option<nat>, slot: nat): Option<Wrapped> {
    match cb
    case None => None
    case Some(c) => Some(Wrapped(c, slot))
  }

  /** The stores that follow a successful load of instance `id`. */
  function AnnounceStores(s: Slot, slot: nat, f: Format, id: nat, cb: Option<nat>): (r: seq<Slot>)
    ensures r != []
  {
    var s1 := s.WithPointer(f, Some(Instance(id, true, None)));
    var s2 := s1.(format := f);
    var s3 := s2.(loaded := true);
    [s1, s2, s3] +
    (if cb.Some? then [s3.WithPointer(f, Some(Instance(id, true, Wrap(cb, slot))))] else [])
  }

  /** The stores of building an instance of a detected format in a torn-down slot. */
  function BuildStores(s: Slot, slot: nat, f: Format, succeeds: bool, id: nat, cb: Option<nat>): (r: seq<Slot>)
    ensures f != Empty ==> r != []
  {
    if f.Empty? then []
    else
      var made := s.WithPointer(f, Some(Instance(id, false, None)));
      [made] + if succeeds then AnnounceStores(made, slot, f, id, cb) else [made.WithPointer(f, None)]
  }

  function LoadStores(s: Slot, slot: nat, f: Format, succeeds: bool, id: nat, cb: Option<nat>): (r: seq<Slot>)
    ensures r != []
  {
    var down := UnloadStores(s);
    down + BuildStores(Last(down), slot, f, succeeds, id, cb)
  }

  /** Installing the chain callback on the instance a slot's format names, if there is one. */
  function Installed(s: Slot, slot: nat, cb: Option<nat>): Slot {
    var p := s.Pointer(s.format);
    if p.Some? then s.WithPointer(s.format, Some(p.value.(callback := Wrap(cb, slot)))) else s
  }

  function After(c: ChainState, op: Op): ChainState
    requires |c.slots| == MAX_SLOTS
  {
    match op
    case Load(i, f, ok) =>
      if !InRange(i) then c
      else c.(slots := c.slots[i := Last(LoadStores(c.slots[i], i, f, ok, c.nextId, c.callback))],
              nextId := if f.Empty? then c.nextId else c.nextId + 1)
    case Unload(i) =>
      if !InRange(i) then c else c.(slots := c.slots[i := Last(UnloadStores(c.slots[i]))])
    case SetCallback(cb) =>
      c.(callback := cb,
         slots := seq(MAX_SLOTS, i requires 0 <= i < MAX_SLOTS => Installed(c.slots[i], i, cb)))
    case SetBypass(i, b) =>
      if !InRange(i) then c else c.(slots := c.slots[i := c.slots[i].(bypass := b)])
    case SetEnabled(b) => c.(enabled := b)
  }

  /** The slot an operation works on passes through these values, one per store. */
  function SlotStores(c: ChainState, op: Op, i: nat): seq<Slot>
    requires |c.slots| == MAX_SLOTS && i < MAX_SLOTS
  {
    match op
    case Load(j, f, ok) =>
      if j == i then LoadStores(c.slots[i], i, f, ok, c.nextId, c.callback) else []
    case Unload(j) => if j == i then UnloadStores(c.slots[i]) else []
    case SetCallback(cb) => [Installed(c.slots[i], i, cb)]
    case SetBypass(j, b) => if j == i then [c.slots[i].(bypass := b)] else []
    case SetEnabled(_) => []
  }

  function Run(c: ChainState, ops: seq<Op>): (r: ChainState)
    requires |c.slots| == MAX_SLOTS
    ensures |r.slots| == MAX_SLOTS
  {
    if ops == [] then c else After(Run(c, ops[..|ops| - 1]), ops[|ops| - 1])
  }

  const EMPTY_SLOT := Slot(false, false, Empty, None, None, None)

  function Fresh(): (c: ChainState)
    ensures |c.slots| == MAX_SLOTS
  {
    ChainState(seq(MAX_SLOTS, _ => EMPTY_SLOT), false, None, 0)
  }

  // ---- What holds of a slot ----

  /** Safe for the audio thread to observe: a slot that says it is loaded has the instance of its
      format, and that instance has been loaded completely. */
  ghost predicate Coherent(s: Slot) {
    s.loaded ==> s.format != Empty && s.Pointer(s.format).Some? && s.Pointer(s.format).value.ready
  }

  /** The installed closure forwards to the callback `cb` with index `slot`, and there is none without one. */
  predicate Routed(w: Option<Wrapped>, cb: Option<nat>, slot: nat) {
    match cb
    case None => w.None?
    case Some(c) => w.Some? && w.value.callback == c && w.value.slot == slot
  }

  /** Between operations: loaded exactly when there is a format, exactly when that format's pointer,
      and no other, is set; and the instance reports to the current callback as this slot. */
  ghost predicate Settled(s: Slot, slot: nat, cb: Option<nat>) {
    && (s.loaded <==> s.format != Empty)
    && (forall f: Format :: s.Pointer(f).Some? <==> (f == s.format && f != Empty))
    && (s.loaded ==>
          s.Pointer(s.format).value.ready && Routed(s.Pointer(s.format).value.callback, cb, slot))
  }

  function InstanceId(s: Slot): nat
    requires s.Pointer(s.format).Some?
  {
    s.Pointer(s.format).value.id
  }

  ghost predicate AllSettled(c: ChainState) {
    && |c.slots| == MAX_SLOTS
    && (forall i :: 0 <= i < MAX_SLOTS ==> Settled(c.slots[i], i, c.callback))
    && (forall i :: 0 <= i < MAX_SLOTS && c.slots[i].loaded ==> InstanceId(c.slots[i]) < c.nextId)
    && (forall i, j :: 0 <= i < j < MAX_SLOTS && c.slots[i].loaded && c.slots[j].loaded ==>
          InstanceId(c.slots[i]) != InstanceId(c.slots[j]))
  }

  /** Does this store put the slot in a state with a running plugin that reports nowhere, although
      a callback is set? */
  ghost predicate Unrouted(s: Slot, cb: Option<nat>) {
    s.loaded && cb.Some? && s.Pointer(s.format).Some? && s.Pointer(s.format).value.callback.None?
  }

  lemma TearDownCoherent(s: Slot, slot: nat, cb: Option<nat>)
    requires Settled(s, slot, cb)
    ensures forall k :: 0 <= k < |UnloadStores(s)| ==>
      !UnloadStores(s)[k].loaded && UnloadStores(s)[k].bypass == s.bypass
    ensures Last(UnloadStores(s)) == EMPTY_SLOT.(bypass := s.bypass)
  {
    assert s.Pointer(Vst3).Some? ==> s.format == Vst3;
    assert s.Pointer(Vst2).Some? ==> s.format == Vst2;
    assert s.Pointer(Clap).Some? ==> s.format == Clap;
  }

  lemma AnnounceCoherent(s: Slot, slot: nat, f: Format, id: nat, cb: Option<nat>)
    requires !s.loaded && !f.Empty?
    ensures forall b :: b in AnnounceStores(s, slot, f, id, cb) ==> Coherent(b) && b.bypass == s.bypass
  {
  }

  lemma BuildCoherent(s: Slot, slot: nat, f: Format, succeeds: bool, id: nat, cb: Option<nat>)
    requires s == EMPTY_SLOT.(bypass := s.bypass)
    ensures forall b :: b in BuildStores(s, slot, f, succeeds, id, cb) ==> Coherent(b) && b.bypass == s.bypass
  {
    if !f.Empty? {
      var made := s.WithPointer(f, Some(Instance(id, false, None)));
      assert Coherent(made) && Coherent(made.WithPointer(f, None));
      AnnounceCoherent(made, slot, f, id, cb);
    }
  }

  lemma LoadStoresCoherent(s: Slot, slot: nat, f: Format, succeeds: bool, id: nat, cb: Option<nat>,
      chainCb: Option<nat>)
    requires Settled(s, slot, chainCb)
    ensures forall b :: b in LoadStores(s, slot, f, succeeds, id, cb) ==> Coherent(b) && b.bypass == s.bypass
  {
    TearDownCoherent(s, slot, chainCb);
    BuildCoherent(Last(UnloadStores(s)), slot, f, succeeds, id, cb);
  }

  /** At every store of every operation the slot is coherent, and its bypass flag is untouched
      unless the operation is about that flag. */
  lemma StoresCoherent(c: ChainState, op: Op, i: nat, k: nat)
    requires AllSettled(c) && i < MAX_SLOTS && k < |SlotStores(c, op, i)|
    ensures Coherent(SlotStores(c, op, i)[k])
    ensures !op.SetBypass? ==> SlotStores(c, op, i)[k].bypass == c.slots[i].bypass
  {
    var s := c.slots[i];
    assert Settled(s, i, c.callback);
    match op
    case Load(j, f, ok) => LoadStoresCoherent(s, i, f, ok, c.nextId, c.callback, c.callback);
    case Unload(j) => TearDownCoherent(s, i, c.callback);
    case _ =>
  }

  /** Operations on one slot leave the others alone. */
  lemma OtherSlotsUntouched(c: ChainState, op: Op, i: nat)
    requires |c.slots| == MAX_SLOTS && i < MAX_SLOTS
    requires (op.Load? || op.Unload? || op.SetBypass?) && op.slot != i
    ensures After(c, op).slots[i] == c.slots[i] && SlotStores(c, op, i) == []
  {
  }

  /** The last store leaves what the operation as a whole leaves. */
  lemma StoresReachAfter(c: ChainState, op: Op, i: nat)
    requires |c.slots| == MAX_SLOTS && i < MAX_SLOTS
    ensures After(c, op).slots[i] ==
      (if SlotStores(c, op, i) == [] then c.slots[i] else Last(SlotStores(c, op, i)))
  {
  }

  /** Among the stores of all operations exactly one leaves a plugin running whose edits go nowhere: the
      one just before the last of a successful load, while its callback is being routed. */
  lemma UnroutedWindow(c: ChainState, op: Op, i: nat, k: nat)
    requires AllSettled(c) && i < MAX_SLOTS && k < |SlotStores(c, op, i)|
    ensures Unrouted(SlotStores(c, op, i)[k], After(c, op).callback) <==>
      op.Load? && op.slot == i && !op.detected.Empty? && op.succeeds && c.callback.Some? &&
      k == |SlotStores(c, op, i)| - 2
  {
    var s := c.slots[i];
    assert Settled(s, i, c.callback);
    if op.Load? || op.Unload? {
      TearDownCoherent(s, i, c.callback);
    }
  }

  lemma InstallKeepsPointers(s: Slot, slot: nat, oldCb: Option<nat>, cb: Option<nat>)
    requires Settled(s, slot, oldCb)
    ensures Settled(Installed(s, slot, cb), slot, cb)
    ensures s.loaded ==>
      Installed(s, slot, cb).Pointer(s.format).value.id == s.Pointer(s.format).value.id
  {
    forall f: Format
      ensures Installed(s, slot, cb).Pointer(f).Some? == s.Pointer(f).Some?
    {
    }
  }

  /** An instance is in place that is not, or no longer, loaded completely. */
  predicate Unready(s: Slot, f: Format) {
    s.Pointer(f).Some? && !s.Pointer(f).value.ready
  }

  lemma UnloadUnready(s: Slot, slot: nat, cb: Option<nat>, k: nat, f: Format)
    requires Settled(s, slot, cb) && k < |UnloadStores(s)|
    ensures Unready(UnloadStores(s)[k], f) <==> s.loaded && f == s.format && k == 1
  {
    assert s.Pointer(f).Some? <==> f == s.format && f != Empty;
    assert s.Pointer(s.format).Some? <==> s.loaded;
  }

  lemma AnnounceReady(s: Slot, slot: nat, g: Format, id: nat, cb: Option<nat>, f: Format)
    requires !g.Empty? && (f != g ==> !Unready(s, f))
    ensures forall b :: b in AnnounceStores(s, slot, g, id, cb) ==> !Unready(b, f)
  {
  }

  lemma BuildUnready(s: Slot, slot: nat, g: Format, ok: bool, id: nat, cb: Option<nat>, k: nat, f: Format)
    requires s == EMPTY_SLOT.(bypass := s.bypass) && k < |BuildStores(s, slot, g, ok, id, cb)|
    ensures Unready(BuildStores(s, slot, g, ok, id, cb)[k], f) <==> f == g && k == 0
  {
    var made := s.WithPointer(g, Some(Instance(id, false, None)));
    assert Unready(made, f) <==> f == g;
    AnnounceReady(made, slot, g, id, cb, f);
    if k > 0 && ok {
      assert BuildStores(s, slot, g, ok, id, cb)[k] in AnnounceStores(made, slot, g, id, cb);
    }
  }

  /** Among the stores of all operations just these leave an unready instance in place: the one by which the
      slot's instance is told to unload, and the one that puts a new instance there. */
  lemma UnreadyWindow(c: ChainState, op: Op, i: nat, k: nat, f: Format)
    requires AllSettled(c) && i < MAX_SLOTS && k < |SlotStores(c, op, i)|
    ensures Unready(SlotStores(c, op, i)[k], f) <==>
      && (op.Load? || op.Unload?)
      && (|| (c.slots[i].loaded && f == c.slots[i].format && k == 1)
          || (op.Load? && f == op.detected && k == |UnloadStores(c.slots[i])|))
  {
    var s := c.slots[i];
    assert Settled(s, i, c.callback);
    match op
    case Load(_, g, ok) =>
      TearDownCoherent(s, i, c.callback);
      var down := UnloadStores(s);
      if k < |down| {
        UnloadUnready(s, i, c.callback, k, f);
      } else {
        BuildUnready(Last(down), i, g, ok, c.nextId, c.callback, k - |down|, f);
      }
    case Unload(_) => UnloadUnready(s, i, c.callback, k, f);
    case SetCallback(cb) => InstallKeepsPointers(s, i, c.callback, cb);
    case SetBypass(_, b) => assert s.(bypass := b).Pointer(f) == s.Pointer(f);
    case SetEnabled(_) =>
  }

  /** A callback change has a window of its own: the chain's callback is stored first, then slot after slot
      gets it. After `done` of them, a plugin runs with its edits going nowhere exactly if the callback is
      the first one and the turn of its slot is still to come. */
  lemma FirstCallbackWindow(c: ChainState, cb: Option<nat>, done: nat, i: nat)
    requires AllSettled(c) && i < MAX_SLOTS && done <= MAX_SLOTS
    ensures Unrouted(if i < done then Installed(c.slots[i], i, cb) else c.slots[i], cb) <==>
      i >= done && c.slots[i].loaded && cb.Some? && c.callback.None?
  {
    assert Settled(c.slots[i], i, c.callback);
  }

  lemma EmptySlotSettled(bypass: bool, slot: nat, cb: Option<nat>)
    ensures Settled(EMPTY_SLOT.(bypass := bypass), slot, cb)
  {
    forall f: Format
      ensures EMPTY_SLOT.(bypass := bypass).Pointer(f).None?
    {
    }
  }

  lemma LoadedSlotSettles(s: Slot, slot: nat, f: Format, ok: bool, id: nat, cb: Option<nat>)
    requires Settled(s, slot, cb)
    ensures var t := Last(LoadStores(s, slot, f, ok, id, cb));
      Settled(t, slot, cb) && (t.loaded <==> f != Empty && ok) &&
      (t.loaded ==> t.format == f && t.Pointer(f).value.id == id)
  {
    TearDownCoherent(s, slot, cb);
    var t := Last(LoadStores(s, slot, f, ok, id, cb));
    forall g: Format
      ensures t.Pointer(g).Some? <==> (g == t.format && g != Empty)
    {
    }
  }

  /** One slot across one operation: it stays settled, and if it ends up loaded it either got the
      fresh instance of this load or kept the instance it had. */
  lemma SlotKeepsSettled(c: ChainState, op: Op, i: nat)
    requires AllSettled(c) && i < MAX_SLOTS
    ensures var s, s' := c.slots[i], After(c, op).slots[i];
      && Settled(s', i, After(c, op).callback)
      && c.nextId <= After(c, op).nextId
      && (s'.loaded ==>
            s'.Pointer(s'.format).Some? &&
            if op.Load? && op.slot == i then
              InstanceId(s') == c.nextId && After(c, op).nextId == c.nextId + 1
            else
              s.loaded && s.Pointer(s.format).Some? && InstanceId(s') == InstanceId(s))
  {
    var s := c.slots[i];
    assert Settled(s, i, c.callback);
    match op
    case Load(j, f, ok) => LoadedSlotSettles(s, i, f, ok, c.nextId, c.callback);
    case Unload(j) =>
      TearDownCoherent(s, i, c.callback);
      EmptySlotSettled(s.bypass, i, c.callback);
    case SetCallback(cb) => InstallKeepsPointers(s, i, c.callback, cb);
    case SetBypass(j, b) => assert forall f: Format :: s.(bypass := b).Pointer(f) == s.Pointer(f);
    case SetEnabled(b) =>
  }

  lemma AfterKeepsSettled(c: ChainState, op: Op)
    requires AllSettled(c)
    ensures AllSettled(After(c, op))
  {
    forall i: nat | i < MAX_SLOTS {
      SlotKeepsSettled(c, op, i);
    }
    var c' := After(c, op);
    forall i, j | 0 <= i < j < MAX_SLOTS && c'.slots[i].loaded && c'.slots[j].loaded
      ensures InstanceId(c'.slots[i]) != InstanceId(c'.slots[j])
    {
      SlotKeepsSettled(c, op, i);
      SlotKeepsSettled(c, op, j);
      assert c.slots[i].loaded ==> InstanceId(c.slots[i]) < c.nextId;
      assert c.slots[j].loaded ==> InstanceId(c.slots[j]) < c.nextId;
    }
  }

  /** Over every run of loads (successful, failing, of an unknown format, switching formats),
      unloads, callback changes and flag changes, every slot is settled: no plugin keeps an
      outdated callback or another slot's index, and no instance sits in two slots. */
  lemma {:induction false} EveryRunSettled(ops: seq<Op>)
    ensures AllSettled(Run(Fresh(), ops))
  {
    if ops == [] {
      forall i | 0 <= i < MAX_SLOTS
        ensures Settled(Fresh().slots[i], i, None)
      {
      }
    } else {
      EveryRunSettled(ops[..|ops| - 1]);
      AfterKeepsSettled(Run(Fresh(), ops[..|ops| - 1]), ops[|ops| - 1]);
    }
  }

  // ---- The slots in terms of the operations alone ----

  /** The last callback change is operation `k`; if there is none, `k` is the number of operations. */
  ghost predicate LastCallbackChange(ops: seq<Op>, k: nat) {
    && k <= |ops| && (k < |ops| ==> ops[k].SetCallback?)
    && forall j :: 0 <= j < |ops| && (j > k || k == |ops|) ==> !ops[j].SetCallback?
  }

  lemma {:induction false} CallbackAsLastSet(ops: seq<Op>, k: nat)
    requires LastCallbackChange(ops, k)
    ensures Run(Fresh(), ops).callback == if k < |ops| then ops[k].cb else None
  {
    if ops == [] {
    } else if k != |ops| - 1 {
      var n := |ops| - 1;
      CallbackAsLastSet(ops[..n], if k < n then k else n);
    }
  }

  lemma SettledRoute(c: ChainState, i: nat)
    requires AllSettled(c) && i < MAX_SLOTS && c.slots[i].loaded
    ensures var s := c.slots[i]; s.Pointer(s.format).Some? && Routed(s.Pointer(s.format).value.callback, c.callback, i)
  {
    assert Settled(c.slots[i], i, c.callback);
  }

  /** After every series of operations the closure of each loaded plugin carries the index of its own slot
      and the callback set last; there is none if none was set, or the last change removed it. */
  lemma RoutedAsLastSet(ops: seq<Op>, k: nat, i: nat)
    requires LastCallbackChange(ops, k) && i < MAX_SLOTS && Run(Fresh(), ops).slots[i].loaded
    ensures var s := Run(Fresh(), ops).slots[i];
      && s.Pointer(s.format).Some?
      && var w := s.Pointer(s.format).value.callback;
         if k < |ops| && ops[k].cb.Some? then
           w.Some? && w.value.slot == i && w.value.callback == ops[k].cb.value
         else w.None?
  {
    EveryRunSettled(ops);
    CallbackAsLastSet(ops, k);
    SettledRoute(Run(Fresh(), ops), i);
  }

  predicate Places(op: Op, i: nat) {
    (op.Load? || op.Unload?) && op.slot == i
  }

  /** The last load or unload of slot `i` is operation `k`. */
  ghost predicate LastPlacement(ops: seq<Op>, i: nat, k: nat) {
    && k <= |ops| && (k < |ops| ==> Places(ops[k], i))
    && forall j :: 0 <= j < |ops| && (j > k || k == |ops|) ==> !Places(ops[j], i)
  }

  /** No other operation changes what is in a slot. */
  lemma SlotKept(c: ChainState, op: Op, i: nat)
    requires AllSettled(c) && i < MAX_SLOTS && !Places(op, i)
    ensures var s, s' := c.slots[i], After(c, op).slots[i];
      && s'.loaded == s.loaded && s'.format == s.format
      && (s.loaded ==>
            s.Pointer(s.format).Some? && s'.Pointer(s.format).Some? && InstanceId(s') == InstanceId(s))
  {
    assert Settled(c.slots[i], i, c.callback);
    SlotKeepsSettled(c, op, i);
    match op
    case SetCallback(cb) => InstallKeepsPointers(c.slots[i], i, c.callback, cb);
    case _ =>
  }

  lemma PlacedSlot(c: ChainState, op: Op, i: nat)
    requires AllSettled(c) && i < MAX_SLOTS && Places(op, i)
    ensures var s := After(c, op).slots[i];
      && (s.loaded <==> op.Load? && op.succeeds && !op.detected.Empty?)
      && (s.loaded ==> s.format == op.detected && s.Pointer(s.format).Some? && InstanceId(s) == c.nextId)
  {
    assert Settled(c.slots[i], i, c.callback);
    if op.Load? {
      LoadedSlotSettles(c.slots[i], i, op.detected, op.succeeds, c.nextId, c.callback);
    } else {
      TearDownCoherent(c.slots[i], i, c.callback);
    }
  }

  /** The last load or unload of a slot decides what is in it: a plugin, if it was a load of a known format
      that succeeded, and then that load's own instance in that format; nothing if there was none. */
  lemma {:induction false} LoadedAsLastPlaced(ops: seq<Op>, i: nat, k: nat)
    requires i < MAX_SLOTS && LastPlacement(ops, i, k)
    ensures var s := Run(Fresh(), ops).slots[i];
      && (s.loaded <==> k < |ops| && ops[k].Load? && ops[k].succeeds && !ops[k].detected.Empty?)
      && (s.loaded ==>
            && s.format == ops[k].detected && s.Pointer(s.format).Some?
            && InstanceId(s) == Run(Fresh(), ops[..k]).nextId)
  {
    if ops == [] {
    } else {
      var n := |ops| - 1;
      EveryRunSettled(ops[..n]);
      if k == n {
        PlacedSlot(Run(Fresh(), ops[..n]), ops[n], i);
      } else {
        LoadedAsLastPlaced(ops[..n], i, if k < n then k else n);
        assert k < n ==> ops[..n][..k] == ops[..k];
        SlotKept(Run(Fresh(), ops[..n]), ops[n], i);
      }
    }
  }

  /** The last operation about the bypass flag of slot `i` is `k`. */
  ghost predicate LastBypass(ops: seq<Op>, i: nat, k: nat) {
    && k <= |ops| && (k < |ops| ==> ops[k].SetBypass? && ops[k].slot == i)
    && forall j :: 0 <= j < |ops| && (j > k || k == |ops|) ==> !(ops[j].SetBypass? && ops[j].slot == i)
  }

  lemma BypassKept(c: ChainState, op: Op, i: nat)
    requires AllSettled(c) && i < MAX_SLOTS
    ensures After(c, op).slots[i].bypass ==
      if op.SetBypass? && op.slot == i then op.bypass else c.slots[i].bypass
  {
    StoresReachAfter(c, op, i);
    if SlotStores(c, op, i) != [] && !op.SetBypass? {
      StoresCoherent(c, op, i, |SlotStores(c, op, i)| - 1);
    }
  }

  /** A bypass flag is what it was set to last, through all loads and unloads, and down at first. */
  lemma {:induction false} BypassAsLastSet(ops: seq<Op>, i: nat, k: nat)
    requires i < MAX_SLOTS && LastBypass(ops, i, k)
    ensures Run(Fresh(), ops).slots[i].bypass == (k < |ops| && ops[k].bypass)
  {
    if ops == [] {
    } else {
      var n := |ops| - 1;
      EveryRunSettled(ops[..n]);
      BypassKept(Run(Fresh(), ops[..n]), ops[n], i);
      if k != n {
        BypassAsLastSet(ops[..n], i, if k < n then k else n);
      }
    }
  }

  ghost predicate LastEnabling(ops: seq<Op>, k: nat) {
    && k <= |ops| && (k < |ops| ==> ops[k].SetEnabled?)
    && forall j :: 0 <= j < |ops| && (j > k || k == |ops|) ==> !ops[j].SetEnabled?
  }

  /** The chain is off until it is switched on, and then as it was switched last. */
  lemma {:induction false} EnabledAsLastSet(ops: seq<Op>, k: nat)
    requires LastEnabling(ops, k)
    ensures Run(Fresh(), ops).enabled == (k < |ops| && ops[k].enabled)
  {
    if ops == [] {
    } else if k != |ops| - 1 {
      var n := |ops| - 1;
      EnabledAsLastSet(ops[..n], if k < n then k else n);
    }
  }

  /** Over every run, at every store of every operation: the slot is coherent, and the last store of an
      operation leaves it settled under the then current callback. */
  lemma EveryStoreCoherent(ops: seq<Op>, op: Op, i: nat, k: nat)
    requires i < MAX_SLOTS && k < |SlotStores(Run(Fresh(), ops), op, i)|
    ensures var c := Run(Fresh(), ops);
      && Coherent(SlotStores(c, op, i)[k])
      && Settled(Last(SlotStores(c, op, i)), i, After(c, op).callback)
  {
    var c := Run(Fresh(), ops);
    EveryRunSettled(ops);
    StoresCoherent(c, op, i, k);
    StoresReachAfter(c, op, i);
    AfterKeepsSettled(c, op);
    assert Settled(After(c, op).slots[i], i, After(c, op).callback);
  }

  /** What a slot shows to the audio thread: an instance to run exactly if it is loaded, not bypassed, and the
      pointer of its own format is set. */
  lemma ViewExactly(s: Slot, p: nat)
    ensures s.View() == View.Run(p) <==>
      && s.loaded && !s.bypass
      && (|| (s.format == Vst3 && s.vst3.Some? && s.vst3.value.id == p)
          || (s.format == Vst2 && s.vst2.Some? && s.vst2.value.id == p)
          || (s.format == Clap && s.clap.Some? && s.clap.value.id == p))
  {
  }

  /** In a settled chain an audio thread that is not interfered with runs exactly the loaded,
      unbypassed slots, each on its own slot's instance. */
  lemma SettledView(c: ChainState, i: nat)
    requires AllSettled(c) && i < MAX_SLOTS
    ensures c.slots[i].View().Run? <==> c.slots[i].loaded && !c.slots[i].bypass
  {
    assert Settled(c.slots[i], i, c.callback);
  }
}
