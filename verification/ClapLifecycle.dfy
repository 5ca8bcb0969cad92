/** What a CLAP host calls on plugin modules over its life: loads, unloads, editor views and timers. */
module ClapLifecycle {
  import opened Wrappers
  import opened ClapTimers
  import Bits

  /** What is acquired step by step, in this order, and given back in reverse. */
  datatype Resource = Handle | Entry | Plugin | Active | Processing | Gui

  const LOADED: nat := 5

  function Rank(r: Resource): nat {
    match r
    case Handle => 0
    case Entry => 1
    case Plugin => 2
    case Active => 3
    case Processing => 4
    case Gui => 5
  }

  function ResourceAt(n: nat): (r: Resource)
    requires n < 6
    ensures Rank(r) == n
  {
    if n == 0 then Handle else if n == 1 then Entry else if n == 2 then Plugin
    else if n == 3 then Active else if n == 4 then Processing else Gui
  }

  /** The calls into a module, by the plugin instance they are made for. */
  datatype Call =
    | Acquire(id: nat, resource: Resource)
    | Release(id: nat, resource: Resource)
    | Show(id: nat)
    | Hide(id: nat)

  /** Which functions the plugin's GUI extension provides. */
  datatype GuiExt = GuiExt(hasCreate: bool, hasDestroy: bool, hasShow: bool, hasHide: bool)

  datatype Instance = Instance(id: nat, gui: Option<GuiExt>)

  datatype View = View(instance: Instance, created: bool, shown: bool, embedded: bool)

  /** What the host shares with the modules it calls: the calls made so far; the timer calls that plugins
      will make from inside each of the coming ones, and until the one after it (none once the scripts
      have run out); and the timer registry. */
  datatype World = World(log: seq<Call>, reentry: seq<seq<TimerCall>>, registry: Registry)

  datatype Host = Host(active: Option<Instance>, view: Option<View>, nextId: nat, world: World)

  function Flat(scripts: seq<seq<TimerCall>>): seq<TimerCall> {
    if scripts == [] then [] else Flat(scripts[..|scripts| - 1]) + scripts[|scripts| - 1]
  }

  /** The timer calls made from inside the next `n` calls. */
  function Reentrant(w: World, n: nat): seq<TimerCall> {
    Flat(w.reentry[..Min(n, |w.reentry|)])
  }

  /** The world after one more call. */
  function MadeOne(w: World, c: Call): World {
    if w.reentry == [] then w.(log := w.log + [c])
    else World(w.log + [c], w.reentry[1..], Perform(w.registry, w.reentry[0]))
  }

  /** The world after these calls. */
  function Made(w: World, calls: seq<Call>): (w': World)
    ensures w'.log == w.log + calls
    decreases |calls|
  {
    if calls == [] then w else Made(MadeOne(w, calls[0]), calls[1..])
  }

  /** Where a load stops. */
  datatype Fault =
    | DlopenFails | NoEntrySymbol | NullMethods | EntryInitFails | NoFactory | NoEffect
    | CreateFails | PluginInitFails | ActivateFails | StartFails | NoFault

  function ErrorCode(f: Fault): nat {
    match f
    case DlopenFails => 1
    case NoEntrySymbol => 2
    case NullMethods => 2
    case NoFactory => 3
    case NoEffect => 3
    case NoFault => 0
    case _ => 4
  }

  /** How many resources a load has acquired when it stops. */
  function Reached(f: Fault): (n: nat)
    ensures n <= LOADED && (n == LOADED <==> f.NoFault?)
  {
    match f
    case DlopenFails => 0
    case NoEntrySymbol => 1
    case NullMethods => 1
    case EntryInitFails => 1
    case NoFactory => 2
    case NoEffect => 2
    case CreateFails => 2
    case PluginInitFails => 3
    case ActivateFails => 3
    case StartFails => 4
    case NoFault => LOADED
  }

  function Up(id: nat, n: nat): seq<Call>
    requires n <= LOADED
  {
    if n == 0 then [] else Up(id, n - 1) + [Acquire(id, ResourceAt(n - 1))]
  }

  function Down(id: nat, n: nat): seq<Call>
    requires n <= LOADED
  {
    if n == 0 then [] else [Release(id, ResourceAt(n - 1))] + Down(id, n - 1)
  }

  // ---- The operations ----

  function DropViewCalls(v: Option<View>): seq<Call> {
    if v.None? || !v.value.created || v.value.instance.gui.None? then []
    else
      var id, gui := v.value.instance.id, v.value.instance.gui.value;
      (if v.value.shown && gui.hasHide then [Hide(id)] else []) + (if gui.hasDestroy then [Release(id, Gui)] else [])
  }

  function TearDownCalls(a: Option<Instance>): seq<Call> {
    if a.None? then [] else Down(a.value.id, LOADED)
  }

  function LoadCalls(h: Host, fault: Fault): seq<Call> {
    if fault.NoFault? then Up(h.nextId, LOADED) + DropViewCalls(h.view) + TearDownCalls(h.active)
    else Up(h.nextId, Reached(fault)) + Down(h.nextId, Reached(fault))
  }

  /** `gui` is the extension a successfully loaded plugin has. */
  function Load(h: Host, fault: Fault, gui: Option<GuiExt>): Host {
    var h' := h.(world := Made(h.world, LoadCalls(h, fault)), nextId := h.nextId + 1);
    if fault.NoFault? then h'.(active := Some(Instance(h.nextId, gui)), view := None) else h'
  }

  /** The registry is cleared between dropping the view and tearing the plugin down. */
  function ClearedWorld(h: Host): World {
    var dropped := Made(h.world, DropViewCalls(h.view));
    dropped.(registry := Cleared(dropped.registry))
  }

  function Unload(h: Host): Host {
    h.(world := Made(ClearedWorld(h), TearDownCalls(h.active)), active := None, view := None)
  }

  function AcquireCalls(h: Host, createOk: bool): seq<Call> {
    if h.active.Some? && h.active.value.gui.Some? && h.view.None? && h.active.value.gui.value.hasCreate && createOk
    then [Acquire(h.active.value.id, Gui)] else []
  }

  function AcquireView(h: Host, createOk: bool): Host {
    if h.active.None? || h.active.value.gui.None? || h.view.Some? then h
    else
      var calls := AcquireCalls(h, createOk);
      h.(view := Some(View(h.active.value, calls != [], false, false)), world := Made(h.world, calls))
  }

  function ReleaseView(h: Host): Host {
    h.(world := Made(h.world, DropViewCalls(h.view)), view := None)
  }

  predicate Attaches(h: Host, supported: bool, parentOk: bool) {
    h.view.Some? && h.view.value.instance.gui.Some? && supported && h.view.value.created && parentOk
  }

  function AttachCalls(h: Host, supported: bool, parentOk: bool, showOk: bool): seq<Call> {
    if Attaches(h, supported, parentOk) && h.view.value.instance.gui.value.hasShow && showOk
    then [Show(h.view.value.instance.id)] else []
  }

  function Attach(h: Host, supported: bool, parentOk: bool, showOk: bool): Host {
    if !Attaches(h, supported, parentOk) then h
    else
      var calls := AttachCalls(h, supported, parentOk, showOk);
      h.(view := Some(h.view.value.(embedded := true, shown := h.view.value.shown || calls != [])),
         world := Made(h.world, calls))
  }

  /** The view object stays, with nothing created. */
  function Removed(h: Host): Host {
    if h.view.None? then h
    else h.(world := Made(h.world, DropViewCalls(h.view)),
            view := Some(h.view.value.(created := false, shown := false, embedded := false)))
  }

  /** Timer calls at any other moment, with or without an active plugin. */
  function CallTimers(h: Host, calls: seq<TimerCall>): Host {
    h.(world := h.world.(registry := Perform(h.world.registry, calls)))
  }

  datatype Op =
    | DoLoad(fault: Fault, gui: Option<GuiExt>)
    | DoUnload
    | DoAcquireView(createOk: bool)
    | DoReleaseView
    | DoAttach(supported: bool, parentOk: bool, showOk: bool)
    | DoRemoved
    | DoCallTimers(calls: seq<TimerCall>)

  function Apply(h: Host, op: Op): Host {
    match op
    case DoLoad(fault, gui) => Load(h, fault, gui)
    case DoUnload => Unload(h)
    case DoAcquireView(createOk) => AcquireView(h, createOk)
    case DoReleaseView => ReleaseView(h)
    case DoAttach(supported, parentOk, showOk) => Attach(h, supported, parentOk, showOk)
    case DoRemoved => Removed(h)
    case DoCallTimers(calls) => CallTimers(h, calls)
  }

  function ApplyAll(h: Host, ops: seq<Op>): Host {
    if ops == [] then h else Apply(ApplyAll(h, ops[..|ops| - 1]), ops[|ops| - 1])
  }

  /** A new host, and what plugins will do from inside its calls. */
  function Fresh(reentry: seq<seq<TimerCall>>): Host {
    Host(None, None, 0, World([], reentry, Blank()))
  }

  // ---- The editor view, by what the plugin offers and answers ----

  /** A view is created on first use, with a GUI if the plugin offers one and can make it. */
  lemma AcquireExactly(h: Host, createOk: bool)
    requires h.active.Some? && h.active.value.gui.Some? && h.view.None?
    ensures var h', a := AcquireView(h, createOk), h.active.value;
      var made := a.gui.value.hasCreate && createOk;
      && h'.view == Some(View(a, made, false, false)) && h'.active == h.active
      && h'.world.log == h.world.log + if made then [Acquire(a.id, Gui)] else []
  {
  }

  /** An attach embeds an existing GUI if the window system and the parent are right, and shows it if the plugin
      can and does. */
  lemma AttachExactly(h: Host, supported: bool, parentOk: bool, showOk: bool)
    requires h.view.Some? && h.view.value.instance.gui.Some?
    ensures var h', v := Attach(h, supported, parentOk, showOk), h.view.value;
      var embeds := v.created && supported && parentOk;
      var shows := embeds && v.instance.gui.value.hasShow && showOk;
      && h'.view == Some(v.(embedded := v.embedded || embeds, shown := v.shown || shows))
      && h'.world.log == h.world.log + if shows then [Show(v.instance.id)] else []
  {
  }

  /** What is shown is hidden and what was created is destroyed; a release forgets the view, a removal keeps it
      with nothing created. */
  lemma DropsExactly(h: Host)
    requires h.view.Some? && h.view.value.instance.gui.Some?
    ensures var v := h.view.value;
      var gui := v.instance.gui.value;
      var log := h.world.log
        + (if v.created && v.shown && gui.hasHide then [Hide(v.instance.id)] else [])
        + (if v.created && gui.hasDestroy then [Release(v.instance.id, Gui)] else []);
      && ReleaseView(h).view.None? && ReleaseView(h).world.log == log
      && Removed(h).view == Some(View(v.instance, false, false, false)) && Removed(h).world.log == log
  {
  }

  // ---- What well-bracketed means ----

  /** How many of the resources an instance holds, and whether its GUI is showing. */
  datatype Stage = Stage(level: nat, visible: bool)

  /** A call is in order only on the right stage: a resource is acquired on top of all before it and
      released from the top, a GUI is shown and hidden only while it exists, and it is destroyed hidden. */
  function Advance(st: Option<Stage>, c: Call, id: nat): Option<Stage> {
    if st.None? || c.id != id then st
    else
      var s := st.value;
      match c
      case Acquire(_, r) => if s.level == Rank(r) then Some(s.(level := s.level + 1)) else None
      case Release(_, r) => if s.level == Rank(r) + 1 && !s.visible then Some(s.(level := s.level - 1)) else None
      case Show(_) => if s.level == Rank(Gui) + 1 then Some(s.(visible := true)) else None
      case Hide(_) => if s.level == Rank(Gui) + 1 && s.visible then Some(s.(visible := false)) else None
  }

  function StageFrom(st: Option<Stage>, calls: seq<Call>, id: nat): Option<Stage> {
    if calls == [] then st else Advance(StageFrom(st, calls[..|calls| - 1], id), calls[|calls| - 1], id)
  }

  /** The stage the log leaves instance `id` on, if all its calls were in order. */
  function StageOf(log: seq<Call>, id: nat): Option<Stage> {
    StageFrom(Some(Stage(0, false)), log, id)
  }

  lemma {:induction false} StageAppends(st: Option<Stage>, a: seq<Call>, b: seq<Call>, id: nat)
    ensures StageFrom(st, a + b, id) == StageFrom(StageFrom(st, a, id), b, id)
  {
    if b == [] {
      assert a + b == a;
    } else {
      var k := |b| - 1;
      StageAppends(st, a, b[..k], id);
      assert (a + b)[..|a| + k] == a + b[..k];
    }
  }

  lemma StageSnoc(st: Option<Stage>, calls: seq<Call>, c: Call, id: nat)
    ensures StageFrom(st, calls + [c], id) == Advance(StageFrom(st, calls, id), c, id)
  {
    assert (calls + [c])[..|calls|] == calls;
  }

  lemma AcquireStage(owner: nat, n: nat, id: nat)
    requires n < LOADED
    ensures var held := if id == owner then n else 0;
      Advance(Some(Stage(held, false)), Acquire(owner, ResourceAt(n)), id) ==
      Some(Stage(if id == owner then n + 1 else 0, false))
  {
  }

  lemma {:induction false} UpStage(owner: nat, n: nat, id: nat)
    requires n <= LOADED
    ensures StageFrom(Some(Stage(0, false)), Up(owner, n), id) == Some(Stage(if id == owner then n else 0, false))
  {
    if n == 0 {
    } else {
      UpStage(owner, n - 1, id);
      StageSnoc(Some(Stage(0, false)), Up(owner, n - 1), Acquire(owner, ResourceAt(n - 1)), id);
      AcquireStage(owner, n - 1, id);
    }
  }

  lemma {:induction false} DownStage(owner: nat, n: nat, id: nat, st: Stage)
    requires n <= LOADED && (id == owner ==> st == Stage(n, false))
    ensures StageFrom(Some(st), Down(owner, n), id) == Some(if id == owner then Stage(0, false) else st)
  {
    if n == 0 {
    } else {
      var top := [Release(owner, ResourceAt(n - 1))];
      var next := if id == owner then Stage(n - 1, false) else st;
      assert StageFrom(Some(st), top, id) == Some(next) by { assert top[..0] == []; }
      StageAppends(Some(st), top, Down(owner, n - 1), id);
      DownStage(owner, n - 1, id, next);
    }
  }

  lemma {:induction false} UpOthers(owner: nat, n: nat, id: nat, st: Option<Stage>)
    requires n <= LOADED && id != owner
    ensures StageFrom(st, Up(owner, n), id) == st
  {
    if n == 0 {
    } else {
      UpOthers(owner, n - 1, id, st);
      StageSnoc(st, Up(owner, n - 1), Acquire(owner, ResourceAt(n - 1)), id);
    }
  }

  /** What is acquired and then released from the top leaves every instance where it was. */
  lemma UpDownStage(owner: nat, n: nat, id: nat, st: Stage)
    requires n <= LOADED && (id == owner ==> st == Stage(0, false))
    ensures StageFrom(StageFrom(Some(st), Up(owner, n), id), Down(owner, n), id) == Some(st)
  {
    if id == owner {
      UpStage(owner, n, id);
      DownStage(owner, n, id, Stage(n, false));
    } else {
      UpOthers(owner, n, id, Some(st));
      DownStage(owner, n, id, st);
    }
  }

  // ---- The invariant ----

  /** The extension can undo what it can do. */
  predicate Complete(gui: GuiExt) {
    gui.hasCreate ==> gui.hasDestroy && (gui.hasShow ==> gui.hasHide)
  }

  predicate LoadsComplete(ops: seq<Op>) {
    forall op :: op in ops && op.DoLoad? && op.gui.Some? ==> Complete(op.gui.value)
  }

  ghost predicate ViewOk(h: Host) {
    && (h.active.Some? ==> h.active.value.id < h.nextId)
    && (h.active.Some? && h.active.value.gui.Some? ==> Complete(h.active.value.gui.value))
    && (h.view.Some? ==>
          && h.active == Some(h.view.value.instance) && h.view.value.instance.gui.Some?
          && (h.view.value.shown ==> h.view.value.created && h.view.value.instance.gui.value.hasShow)
          && (h.view.value.created ==> h.view.value.instance.gui.value.hasCreate))
  }

  /** The stage instance `id` must be on. */
  function Expected(h: Host, id: nat): Stage {
    if h.active.None? || h.active.value.id != id then Stage(0, false)
    else if h.view.Some? && h.view.value.created then Stage(LOADED + 1, h.view.value.shown)
    else Stage(LOADED, false)
  }

  ghost predicate Inv(h: Host) {
    ViewOk(h) && forall id :: StageOf(h.world.log, id) == Some(Expected(h, id))
  }

  lemma DropViewStage(h: Host, id: nat)
    requires ViewOk(h)
    ensures StageFrom(Some(Expected(h, id)), DropViewCalls(h.view), id) == Some(Expected(h.(view := None), id))
  {
    if h.view.Some? && h.view.value.created {
      var v := h.view.value;
      var hiding := if v.shown then [Hide(v.instance.id)] else [];
      var destroying := [Release(v.instance.id, Gui)];
      assert DropViewCalls(h.view) == hiding + destroying;
      StageAppends(Some(Expected(h, id)), hiding, destroying, id);
      assert destroying[..0] == [] && (v.shown ==> hiding[..0] == []);
    }
  }

  lemma TearDownStage(h: Host, id: nat)
    requires ViewOk(h) && h.view.None?
    ensures StageFrom(Some(Expected(h, id)), TearDownCalls(h.active), id) == Some(Stage(0, false))
  {
    if h.active.Some? {
      DownStage(h.active.value.id, LOADED, id, Expected(h, id));
    }
  }

  lemma DropAllStage(h: Host, id: nat)
    requires ViewOk(h)
    ensures StageFrom(Some(Expected(h, id)), DropViewCalls(h.view) + TearDownCalls(h.active), id) ==
      Some(Stage(0, false))
  {
    StageAppends(Some(Expected(h, id)), DropViewCalls(h.view), TearDownCalls(h.active), id);
    DropViewStage(h, id);
    TearDownStage(h.(view := None), id);
  }

  lemma FailedLoadLog(h: Host, fault: Fault)
    requires !fault.NoFault?
    ensures Load(h, fault, None).world.log ==
      h.world.log + Up(h.nextId, Reached(fault)) + Down(h.nextId, Reached(fault))
  {
    Reassociate(h.world.log, Up(h.nextId, Reached(fault)), Down(h.nextId, Reached(fault)));
  }

  lemma FailedLoadStage(h: Host, fault: Fault, id: nat)
    requires Inv(h) && !fault.NoFault?
    ensures StageOf(Load(h, fault, None).world.log, id) == StageOf(h.world.log, id)
  {
    var own, n := h.nextId, Reached(fault);
    FailedLoadLog(h, fault);
    assert StageOf(h.world.log, own) == Some(Expected(h, own));
    assert StageOf(h.world.log, id) == Some(Expected(h, id));
    StageAppends(Some(Stage(0, false)), h.world.log + Up(own, n), Down(own, n), id);
    StageAppends(Some(Stage(0, false)), h.world.log, Up(own, n), id);
    UpDownStage(own, n, id, Expected(h, id));
  }

  lemma {:induction false} ForeignCalls(st: Option<Stage>, calls: seq<Call>, id: nat)
    requires forall c :: c in calls ==> c.id != id
    ensures StageFrom(st, calls, id) == st
  {
    if calls == [] {
    } else {
      ForeignCalls(st, calls[..|calls| - 1], id);
    }
  }

  lemma DropsSpareOthers(h: Host, own: nat, st: Stage)
    requires ViewOk(h) && own >= h.nextId
    ensures StageFrom(Some(st), DropViewCalls(h.view) + TearDownCalls(h.active), own) == Some(st)
  {
    StageAppends(Some(st), DropViewCalls(h.view), TearDownCalls(h.active), own);
    ForeignCalls(Some(st), DropViewCalls(h.view), own);
    if h.active.Some? {
      DownStage(h.active.value.id, LOADED, own, st);
    }
  }

  /** A successful load first acquires and then drops. */
  lemma LoadedInTwo(h: Host, gui: Option<GuiExt>, id: nat)
    ensures var drops := DropViewCalls(h.view) + TearDownCalls(h.active);
      StageOf(Load(h, NoFault, gui).world.log, id) ==
      StageFrom(StageFrom(StageOf(h.world.log, id), Up(h.nextId, LOADED), id), drops, id)
  {
    var up, drops := Up(h.nextId, LOADED), DropViewCalls(h.view) + TearDownCalls(h.active);
    var start := Some(Stage(0, false));
    assert LoadCalls(h, NoFault) == up + drops;
    assert Load(h, NoFault, gui).world.log == (h.world.log + up) + drops;
    StageAppends(start, h.world.log + up, drops, id);
    StageAppends(start, h.world.log, up, id);
  }

  lemma LoadedStage(h: Host, gui: Option<GuiExt>, id: nat)
    requires Inv(h)
    ensures var h' := Load(h, NoFault, gui); StageOf(h'.world.log, id) == Some(Expected(h', id))
  {
    var own := h.nextId;
    LoadedInTwo(h, gui, id);
    assert StageOf(h.world.log, id) == Some(Expected(h, id));
    if id == own {
      UpStage(own, LOADED, id);
      DropsSpareOthers(h, own, Stage(LOADED, false));
    } else {
      UpOthers(own, LOADED, id, StageOf(h.world.log, id));
      DropAllStage(h, id);
    }
  }

  lemma LoadKeeps(h: Host, fault: Fault, gui: Option<GuiExt>)
    requires Inv(h) && (gui.Some? ==> Complete(gui.value))
    ensures Inv(Load(h, fault, gui))
  {
    var h' := Load(h, fault, gui);
    forall id ensures StageOf(h'.world.log, id) == Some(Expected(h', id)) {
      if fault.NoFault? {
        LoadedStage(h, gui, id);
      } else {
        FailedLoadStage(h, fault, id);
      }
    }
  }

  lemma UnloadKeeps(h: Host)
    requires Inv(h)
    ensures Inv(Unload(h))
  {
    forall id ensures StageOf(Unload(h).world.log, id) == Some(Stage(0, false)) {
      var drops := DropViewCalls(h.view) + TearDownCalls(h.active);
      assert Unload(h).world.log == h.world.log + drops;
      StageAppends(Some(Stage(0, false)), h.world.log, drops, id);
      DropAllStage(h, id);
    }
  }

  lemma ViewGoneKeeps(h: Host, h': Host)
    requires Inv(h) && (h' == ReleaseView(h) || h' == Removed(h))
    ensures Inv(h')
  {
    forall id ensures StageOf(h'.world.log, id) == Some(Expected(h', id)) {
      StageAppends(Some(Stage(0, false)), h.world.log, DropViewCalls(h.view), id);
      DropViewStage(h, id);
    }
  }

  lemma OneCallStage(log: seq<Call>, c: Call, id: nat)
    ensures StageOf(log + [c], id) == Advance(StageOf(log, id), c, id)
  {
    assert (log + [c])[..|log|] == log;
  }

  lemma ViewCallKeeps(h: Host, h': Host, c: Call)
    requires Inv(h) && ViewOk(h') && h'.world.log == h.world.log + [c]
    requires h'.active == h.active && h.active.Some? && c.id == h.active.value.id
    requires Advance(Some(Expected(h, c.id)), c, c.id) == Some(Expected(h', c.id))
    ensures Inv(h')
  {
    forall id ensures StageOf(h'.world.log, id) == Some(Expected(h', id)) {
      OneCallStage(h.world.log, c, id);
    }
  }

  lemma AcquireKeeps(h: Host, createOk: bool)
    requires Inv(h)
    ensures Inv(AcquireView(h, createOk))
  {
    var h' := AcquireView(h, createOk);
    if h'.world.log != h.world.log {
      ViewCallKeeps(h, h', Acquire(h.active.value.id, Gui));
    } else {
      assert h'.world.log == h.world.log;
    }
  }

  lemma AttachKeeps(h: Host, supported: bool, parentOk: bool, showOk: bool)
    requires Inv(h)
    ensures Inv(Attach(h, supported, parentOk, showOk))
  {
    var h' := Attach(h, supported, parentOk, showOk);
    if h'.world.log != h.world.log {
      ViewCallKeeps(h, h', Show(h.active.value.id));
    }
  }

  lemma ApplyKeeps(h: Host, op: Op)
    requires Inv(h) && (op.DoLoad? && op.gui.Some? ==> Complete(op.gui.value))
    ensures Inv(Apply(h, op))
  {
    match op
    case DoLoad(fault, gui) => LoadKeeps(h, fault, gui);
    case DoUnload => UnloadKeeps(h);
    case DoAcquireView(createOk) => AcquireKeeps(h, createOk);
    case DoReleaseView => ViewGoneKeeps(h, ReleaseView(h));
    case DoAttach(supported, parentOk, showOk) => AttachKeeps(h, supported, parentOk, showOk);
    case DoRemoved => ViewGoneKeeps(h, Removed(h));
    case DoCallTimers(_) =>
  }

  lemma {:induction false} EveryRunInv(reentry: seq<seq<TimerCall>>, ops: seq<Op>)
    requires LoadsComplete(ops)
    ensures Inv(ApplyAll(Fresh(reentry), ops))
  {
    if ops == [] {
    } else {
      var k := |ops| - 1;
      assert ops == ops[..k] + [ops[k]];
      EveryRunInv(reentry, ops[..k]);
      ApplyKeeps(ApplyAll(Fresh(reentry), ops[..k]), ops[k]);
    }
  }

  /** Over every run: the calls for each instance are in order; an instance that is not the active one
      holds nothing, and the active one holds everything, with a GUI exactly while its view has one. */
  lemma EveryRunBracketed(reentry: seq<seq<TimerCall>>, ops: seq<Op>, id: nat)
    requires LoadsComplete(ops)
    ensures var h := ApplyAll(Fresh(reentry), ops);
      StageOf(h.world.log, id) ==
        if h.active.None? || h.active.value.id != id then Some(Stage(0, false))
        else if h.view.Some? && h.view.value.created then Some(Stage(LOADED + 1, h.view.value.shown))
        else Some(Stage(LOADED, false))
  {
    EveryRunInv(reentry, ops);
  }

  // ---- What a stage says about the log ----

  function CountOf(log: seq<Call>, c: Call): nat {
    if log == [] then 0
    else
      var k := |log| - 1;
      CountOf(log[..k], c) + if log[k] == c then 1 else 0
  }

  /** Each acquisition in order has been undone exactly once, except those still held. */
  lemma {:induction false} StageCounts(log: seq<Call>, id: nat, r: Resource)
    requires StageOf(log, id).Some?
    ensures CountOf(log, Acquire(id, r)) ==
      CountOf(log, Release(id, r)) + if Rank(r) < StageOf(log, id).value.level then 1 else 0
  {
    if log == [] {
    } else {
      StageCounts(log[..|log| - 1], id, r);
    }
  }

  lemma {:induction false} StaysBroken(calls: seq<Call>, id: nat)
    ensures StageFrom(None, calls, id) == None
  {
    if calls == [] {
    } else {
      StaysBroken(calls[..|calls| - 1], id);
    }
  }

  lemma {:induction false} PrefixInOrder(log: seq<Call>, id: nat, k: nat)
    requires StageOf(log, id).Some? && k <= |log|
    ensures StageOf(log[..k], id).Some?
  {
    StageAppends(Some(Stage(0, false)), log[..k], log[k..], id);
    assert log[..k] + log[k..] == log;
    if StageOf(log[..k], id).None? { StaysBroken(log[k..], id); }
  }

  /** Whenever a plugin is destroyed, every GUI it created has been destroyed before, and processing and
      activation have ended. */
  lemma GuiGoneBeforePlugin(reentry: seq<seq<TimerCall>>, ops: seq<Op>, id: nat, k: nat, r: Resource)
    requires LoadsComplete(ops) && k < |ApplyAll(Fresh(reentry), ops).world.log|
    requires ApplyAll(Fresh(reentry), ops).world.log[k] == Release(id, Plugin) && Rank(r) > Rank(Plugin)
    ensures var before := ApplyAll(Fresh(reentry), ops).world.log[..k];
      CountOf(before, Acquire(id, r)) == CountOf(before, Release(id, r))
  {
    var log := ApplyAll(Fresh(reentry), ops).world.log;
    EveryRunBracketed(reentry, ops, id);
    PrefixInOrder(log, id, k);
    PrefixInOrder(log, id, k + 1);
    assert log[..k + 1][..k] == log[..k];
    StageCounts(log[..k], id, r);
  }

  /** After an unload everything every instance ever acquired has been released. */
  lemma UnloadReleasesAll(reentry: seq<seq<TimerCall>>, ops: seq<Op>, id: nat, r: Resource)
    requires LoadsComplete(ops)
    ensures var log := Unload(ApplyAll(Fresh(reentry), ops)).world.log;
      CountOf(log, Acquire(id, r)) == CountOf(log, Release(id, r))
  {
    EveryRunInv(reentry, ops);
    UnloadKeeps(ApplyAll(Fresh(reentry), ops));
    var h := Unload(ApplyAll(Fresh(reentry), ops));
    assert StageOf(h.world.log, id) == Some(Expected(h, id));
    StageCounts(h.world.log, id, r);
  }

  lemma {:induction false} UpDownLength(id: nat, n: nat)
    requires n <= LOADED
    ensures |Up(id, n)| == |Down(id, n)| == n
  {
    if n == 0 {
    } else {
      UpDownLength(id, n - 1);
    }
  }

  lemma {:induction false} FlatAppends(a: seq<seq<TimerCall>>, b: seq<seq<TimerCall>>)
    ensures Flat(a + b) == Flat(a) + Flat(b)
  {
    if b == [] {
      assert a + b == a;
    } else {
      var k := |b| - 1;
      FlatAppends(a, b[..k]);
      assert (a + b)[..|a| + k] == a + b[..k] && (a + b)[|a| + k] == b[k];
      Reassociate(Flat(a), Flat(b[..k]), b[k]);
    }
  }

  /** The next call takes its script off the front of those to come. */
  lemma ReentrantStep(w: World, n: nat)
    requires w.reentry != []
    ensures Reentrant(w, n + 1) == w.reentry[0] + Flat(w.reentry[1..][..Min(n, |w.reentry| - 1)])
  {
    var first, rest := w.reentry[0], w.reentry[1..][..Min(n, |w.reentry| - 1)];
    assert w.reentry[..Min(n + 1, |w.reentry|)] == [first] + rest;
    FlatAppends([first], rest);
    assert [first][..0] == [];
    assert Flat([first]) == first;
  }

  /** One call's script, and then those of `n` more. */
  lemma MadeOneRegistry(w: World, c: Call, n: nat)
    ensures Perform(MadeOne(w, c).registry, Reentrant(MadeOne(w, c), n)) == Perform(w.registry, Reentrant(w, n + 1))
  {
    if w.reentry != [] {
      ReentrantStep(w, n);
      PerformAppends(w.registry, w.reentry[0], Reentrant(MadeOne(w, c), n));
    }
  }

  /** The registry is what the scripts of these calls make of it. */
  lemma {:induction false} MadeRegistry(w: World, calls: seq<Call>)
    ensures Made(w, calls).registry == Perform(w.registry, Reentrant(w, |calls|))
    decreases |calls|
  {
    if calls == [] {
      assert w.reentry[..0] == [];
    } else {
      MadeRegistry(MadeOne(w, calls[0]), calls[1..]);
      MadeOneRegistry(w, calls[0], |calls| - 1);
    }
  }

  lemma SpelledOut(id: nat)
    ensures Up(id, 0) == Down(id, 0) == []
    ensures Up(id, 1) == [Acquire(id, Handle)] && Down(id, 1) == [Release(id, Handle)]
    ensures Up(id, 2) == [Acquire(id, Handle), Acquire(id, Entry)]
    ensures Down(id, 2) == [Release(id, Entry), Release(id, Handle)]
    ensures Up(id, 3) == [Acquire(id, Handle), Acquire(id, Entry), Acquire(id, Plugin)]
    ensures Down(id, 3) == [Release(id, Plugin), Release(id, Entry), Release(id, Handle)]
    ensures Up(id, 4) == [Acquire(id, Handle), Acquire(id, Entry), Acquire(id, Plugin), Acquire(id, Active)]
    ensures Down(id, 4) == [Release(id, Active), Release(id, Plugin), Release(id, Entry), Release(id, Handle)]
    ensures Up(id, LOADED) == Up(id, 4) + [Acquire(id, Processing)]
    ensures Down(id, LOADED) == [Release(id, Processing)] + Down(id, 4)
  {
  }

  /** What a failing load calls, step by step: everything up to the step that fails, and then the way back. */
  lemma FailedLoadCalls(h: Host, fault: Fault)
    requires !fault.NoFault?
    ensures var id := h.nextId;
      LoadCalls(h, fault) ==
      match fault
      case DlopenFails => []
      case NoEntrySymbol => [Acquire(id, Handle), Release(id, Handle)]
      case NullMethods => [Acquire(id, Handle), Release(id, Handle)]
      case EntryInitFails => [Acquire(id, Handle), Release(id, Handle)]
      case NoFactory => [Acquire(id, Handle), Acquire(id, Entry), Release(id, Entry), Release(id, Handle)]
      case NoEffect => [Acquire(id, Handle), Acquire(id, Entry), Release(id, Entry), Release(id, Handle)]
      case CreateFails => [Acquire(id, Handle), Acquire(id, Entry), Release(id, Entry), Release(id, Handle)]
      case StartFails =>
        [Acquire(id, Handle), Acquire(id, Entry), Acquire(id, Plugin), Acquire(id, Active),
         Release(id, Active), Release(id, Plugin), Release(id, Entry), Release(id, Handle)]
      case _ =>
        [Acquire(id, Handle), Acquire(id, Entry), Acquire(id, Plugin),
         Release(id, Plugin), Release(id, Entry), Release(id, Handle)]
  {
    SpelledOut(h.nextId);
  }

  /** The error code tells at which stage the load failed. */
  lemma ErrorCodeTells(f: Fault)
    ensures ErrorCode(f) <= 4 && (ErrorCode(f) == 0 <==> f.NoFault?) && (ErrorCode(f) == 1 <==> f.DlopenFails?)
    ensures ErrorCode(f) == 2 <==> f.NoEntrySymbol? || f.NullMethods?
    ensures ErrorCode(f) == 3 <==> f.NoFactory? || f.NoEffect?
  {
  }

  lemma FailedLoadKeeps(h: Host, fault: Fault, gui: Option<GuiExt>)
    requires !fault.NoFault?
    ensures var h' := Load(h, fault, gui);
      && h'.active == h.active && h'.view == h.view && h.world.log <= h'.world.log
      && h'.world.registry == Perform(h.world.registry, Reentrant(h.world, 2 * Reached(fault)))
  {
    UpDownLength(h.nextId, Reached(fault));
    MadeRegistry(h.world, LoadCalls(h, fault));
  }

  /** A load that fails at any step touches neither the active plugin nor its view, and has released what
      it acquired; the registry is what the timer calls made meanwhile make of it. */
  lemma FailedLoadUndone(reentry: seq<seq<TimerCall>>, ops: seq<Op>, fault: Fault, gui: Option<GuiExt>, r: Resource)
    requires LoadsComplete(ops) && !fault.NoFault?
    ensures var h := ApplyAll(Fresh(reentry), ops);
      var h' := Load(h, fault, gui);
      && h'.active == h.active && h'.view == h.view && h.world.log <= h'.world.log
      && h'.world.registry == Perform(h.world.registry, Reentrant(h.world, 2 * Reached(fault)))
      && CountOf(h'.world.log, Acquire(h.nextId, r)) == CountOf(h'.world.log, Release(h.nextId, r))
  {
    EveryRunInv(reentry, ops);
    var h := ApplyAll(Fresh(reentry), ops);
    FailedLoadKeeps(h, fault, gui);
    FailedLoadStage(h, fault, h.nextId);
    assert StageOf(h.world.log, h.nextId) == Some(Expected(h, h.nextId));
    StageCounts(Load(h, fault, None).world.log, h.nextId, r);
  }

  /** Dropping a view of an incomplete extension leaves its GUI in place, or destroys it while shown. */
  lemma IncompleteDrop(v: View)
    requires v.created && v.instance.gui.Some? && !Complete(v.instance.gui.value)
    requires v.instance.gui.value.hasCreate && v.shown == v.instance.gui.value.hasShow
    ensures var st := StageFrom(Some(Stage(LOADED + 1, v.shown)), DropViewCalls(Some(v)), v.instance.id);
      st.Some? ==> st.value.level == LOADED + 1
  {
    var calls := DropViewCalls(Some(v));
    assert |calls| == 1 ==> calls[..0] == [];
  }

  lemma TearDownUnderGui(st: Option<Stage>, id: nat)
    requires st.Some? ==> st.value.level == LOADED + 1
    ensures StageFrom(st, Down(id, LOADED), id).None?
  {
    var top := [Release(id, Processing)];
    assert Down(id, LOADED) == top + Down(id, LOADED - 1);
    StageAppends(st, top, Down(id, LOADED - 1), id);
    assert StageFrom(st, top, id).None? by { assert top[..0] == []; }
    StaysBroken(Down(id, LOADED - 1), id);
  }

  /** A host whose plugin has just been loaded, its view acquired and attached. */
  function Attached(gui: GuiExt): Host {
    Attach(AcquireView(Load(Fresh([]), NoFault, Some(gui)), true), true, true, true)
  }

  lemma AttachedView(gui: GuiExt)
    requires gui.hasCreate
    ensures Attached(gui).view == Some(View(Instance(0, Some(gui)), true, gui.hasShow, true))
    ensures Attached(gui).active == Some(Instance(0, Some(gui)))
  {
  }

  lemma LoadedLog(gui: GuiExt)
    ensures StageOf(Load(Fresh([]), NoFault, Some(gui)).world.log, 0) == Some(Stage(LOADED, false))
  {
    assert LoadCalls(Fresh([]), NoFault) == Up(0, LOADED);
    assert [] + Up(0, LOADED) == Up(0, LOADED);
    UpStage(0, LOADED, 0);
  }

  lemma AttachedLog(gui: GuiExt)
    requires gui.hasCreate
    ensures Attached(gui).world.log ==
      Load(Fresh([]), NoFault, Some(gui)).world.log + [Acquire(0, Gui)] + if gui.hasShow then [Show(0)] else []
  {
  }

  /** Creating a GUI over a loaded plugin, and showing it or not. */
  lemma GuiStage(log: seq<Call>, shows: seq<Call>)
    requires StageOf(log, 0) == Some(Stage(LOADED, false)) && (shows == [] || shows == [Show(0)])
    ensures StageOf(log + [Acquire(0, Gui)] + shows, 0) == Some(Stage(LOADED + 1, shows != []))
  {
    var st := Some(Stage(0, false));
    StageSnoc(st, log, Acquire(0, Gui), 0);
    if shows == [] {
      assert log + [Acquire(0, Gui)] + [] == log + [Acquire(0, Gui)];
    } else {
      StageSnoc(st, log + [Acquire(0, Gui)], Show(0), 0);
    }
  }

  lemma AttachedStage(gui: GuiExt)
    requires gui.hasCreate
    ensures StageOf(Attached(gui).world.log, 0) == Some(Stage(LOADED + 1, gui.hasShow))
  {
    var loaded, shows := Load(Fresh([]), NoFault, Some(gui)).world.log, if gui.hasShow then [Show(0)] else [];
    LoadedLog(gui);
    AttachedLog(gui);
    GuiStage(loaded, shows);
  }

  /** An extension that cannot undo what it can do does break the bracketing, so its completeness is
      needed: unloading after an attach leaves the calls for instance 0 out of order. */
  lemma IncompleteGuiLeaks(gui: GuiExt)
    requires !Complete(gui)
    ensures StageOf(Unload(Attached(gui)).world.log, 0).None?
  {
    var h := Attached(gui);
    AttachedStage(gui);
    AttachedView(gui);
    var drop, held := DropViewCalls(h.view), StageOf(h.world.log, 0);
    assert Unload(h).world.log == h.world.log + drop + Down(0, LOADED);
    StageAppends(Some(Stage(0, false)), h.world.log + drop, Down(0, LOADED), 0);
    StageAppends(Some(Stage(0, false)), h.world.log, drop, 0);
    IncompleteDrop(h.view.value);
    TearDownUnderGui(StageFrom(held, drop, 0), 0);
  }

  // ---- Timers ----

  /** Calls made one after the other. */
  lemma {:induction false} MadeAppends(w: World, a: seq<Call>, b: seq<Call>)
    ensures Made(w, a + b) == Made(Made(w, a), b)
    decreases |a|
  {
    if a == [] {
      assert a + b == b;
    } else {
      MadeAppends(MadeOne(w, a[0]), a[1..], b);
      assert (a + b)[1..] == a[1..] + b;
    }
  }

  lemma MadeSingle(w: World, c: Call)
    ensures Made(w, [c]) == MadeOne(w, c)
  {
    assert [c][1..] == [];
  }

  lemma UpStep(w: World, id: nat, n: nat)
    requires 0 < n <= LOADED
    ensures Made(w, Up(id, n)) == MadeOne(Made(w, Up(id, n - 1)), Acquire(id, ResourceAt(n - 1)))
  {
    MadeAppends(w, Up(id, n - 1), [Acquire(id, ResourceAt(n - 1))]);
    MadeSingle(Made(w, Up(id, n - 1)), Acquire(id, ResourceAt(n - 1)));
  }

  lemma DownStep(w: World, id: nat, n: nat)
    requires 0 < n <= LOADED
    ensures Made(w, Down(id, n)) == Made(MadeOne(w, Release(id, ResourceAt(n - 1))), Down(id, n - 1))
  {
    assert Down(id, n)[1..] == Down(id, n - 1);
  }

  /** A successful load step by step: acquire everything, drop the view, tear the prior plugin down. */
  lemma LoadInSteps(h: Host, gui: Option<GuiExt>)
    ensures var up := Made(h.world, Up(h.nextId, LOADED));
      var dropped := Made(up, DropViewCalls(h.view));
      Load(h, NoFault, gui) ==
        Host(Some(Instance(h.nextId, gui)), None, h.nextId + 1, Made(dropped, TearDownCalls(h.active)))
  {
    MadeAppends(h.world, Up(h.nextId, LOADED), DropViewCalls(h.view));
    MadeAppends(h.world, Up(h.nextId, LOADED) + DropViewCalls(h.view), TearDownCalls(h.active));
  }

  lemma MadeKeepsRegistry(w: World, calls: seq<Call>)
    requires Ok(w.registry)
    ensures Ok(Made(w, calls).registry)
    ensures Made(w, calls).registry == Perform(w.registry, Reentrant(w, |calls|))
  {
    MadeRegistry(w, calls);
    PerformKeeps(w.registry, Reentrant(w, |calls|));
  }

  /** The registry from which an operation's timer calls start: an unload clears it on the way. */
  function TimerBase(h: Host, op: Op): Registry {
    if op.DoUnload? then ClearedWorld(h).registry else h.world.registry
  }

  /** The timer calls plugins make during an operation, in an unload those after the clearing. */
  function TimerCalls(h: Host, op: Op): seq<TimerCall> {
    match op
    case DoLoad(fault, _) => Reentrant(h.world, |LoadCalls(h, fault)|)
    case DoUnload => Reentrant(ClearedWorld(h), |TearDownCalls(h.active)|)
    case DoAcquireView(createOk) => Reentrant(h.world, |AcquireCalls(h, createOk)|)
    case DoReleaseView => Reentrant(h.world, |DropViewCalls(h.view)|)
    case DoAttach(supported, parentOk, showOk) => Reentrant(h.world, |AttachCalls(h, supported, parentOk, showOk)|)
    case DoRemoved => Reentrant(h.world, |DropViewCalls(h.view)|)
    case DoCallTimers(calls) => calls
  }

  lemma ApplyKeepsRegistry(h: Host, op: Op)
    requires Ok(h.world.registry)
    ensures Ok(Apply(h, op).world.registry) && Ok(TimerBase(h, op))
    ensures Apply(h, op).world.registry == Perform(TimerBase(h, op), TimerCalls(h, op))
  {
    match op
    case DoLoad(fault, _) => MadeKeepsRegistry(h.world, LoadCalls(h, fault));
    case DoUnload =>
      MadeKeepsRegistry(h.world, DropViewCalls(h.view));
      MadeKeepsRegistry(ClearedWorld(h), TearDownCalls(h.active));
    case DoAcquireView(createOk) => MadeKeepsRegistry(h.world, AcquireCalls(h, createOk));
    case DoReleaseView => MadeKeepsRegistry(h.world, DropViewCalls(h.view));
    case DoAttach(supported, parentOk, showOk) =>
      MadeKeepsRegistry(h.world, AttachCalls(h, supported, parentOk, showOk));
    case DoRemoved => MadeKeepsRegistry(h.world, DropViewCalls(h.view));
    case DoCallTimers(calls) => PerformKeeps(h.world.registry, calls);
  }

  lemma {:induction false} EveryRegistryOk(reentry: seq<seq<TimerCall>>, ops: seq<Op>)
    ensures Ok(ApplyAll(Fresh(reentry), ops).world.registry)
  {
    if ops == [] {
      Bits.DivModUnique(1, Bits.WORD32, 0, 1);
    } else {
      var k := |ops| - 1;
      EveryRegistryOk(reentry, ops[..k]);
      ApplyKeepsRegistry(ApplyAll(Fresh(reentry), ops[..k]), ops[k]);
    }
  }

  /** Over every run, whatever plugins do from inside the host's calls: periods are at least 16 ms, and ids
      are those the 32-bit counter gave out; so ids are distinct exactly if no two registered timers are
      a multiple of 2^32 registrations apart. */
  lemma EveryRunTimers(reentry: seq<seq<TimerCall>>, ops: seq<Op>)
    ensures var r := ApplyAll(Fresh(reentry), ops).world.registry;
      Ok(r) && (DistinctIds(r) <==> NoFullTurn(r))
  {
    EveryRegistryOk(reentry, ops);
    IdsDistinctExactly(ApplyAll(Fresh(reentry), ops).world.registry);
  }

  function ActiveId(h: Host): Option<nat> {
    if h.active.None? then None else Some(h.active.value.id)
  }

  /** Every registered timer belongs to the active plugin. */
  ghost predicate TimersOwned(h: Host) {
    AllOwned(h.world.registry, ActiveId(h))
  }

  /** After an operation every registered timer belongs to the then active plugin exactly if the timer
      calls made during it unregistered every timer others had registered before and undid every
      registration others made meanwhile. For an unload there is nothing registered before, and
      everybody is another. The ids must not have come around within 2^32 registrations. */
  lemma TimersFollowThePlugin(reentry: seq<seq<TimerCall>>, ops: seq<Op>, op: Op)
    requires var h := ApplyAll(Fresh(reentry), ops);
      |TimerCalls(h, op)| <= Bits.WORD32 && Recent(TimerBase(h, op), |TimerCalls(h, op)|)
    ensures var h := ApplyAll(Fresh(reentry), ops);
      var owner, base, calls := ActiveId(Apply(h, op)), TimerBase(h, op), TimerCalls(h, op);
      && (TimersOwned(Apply(h, op)) <==> OthersGone(base, calls, owner) && OthersUndone(base, calls, owner))
      && (op.DoUnload? ==> base.timers == [] && owner == None)
  {
    EveryRegistryOk(reentry, ops);
    var h := ApplyAll(Fresh(reentry), ops);
    ApplyKeepsRegistry(h, op);
    OwnedExactly(TimerBase(h, op), TimerCalls(h, op), ActiveId(Apply(h, op)));
  }

  function Loads(ops: seq<Op>): nat {
    if ops == [] then 0
    else Loads(ops[..|ops| - 1]) + if ops[|ops| - 1].DoLoad? then 1 else 0
  }

  predicate Places(op: Op) {
    (op.DoLoad? && op.fault.NoFault?) || op.DoUnload?
  }

  lemma {:induction false} NumbersAreLoads(reentry: seq<seq<TimerCall>>, ops: seq<Op>)
    ensures ApplyAll(Fresh(reentry), ops).nextId == Loads(ops)
  {
    if ops != [] {
      NumbersAreLoads(reentry, ops[..|ops| - 1]);
    }
  }

  /** The active plugin is that of the last load that succeeded, with that load's own number and extension, if
      no unload came after it; else there is none. */
  lemma {:induction false} ActiveAsLastLoaded(reentry: seq<seq<TimerCall>>, ops: seq<Op>, k: nat)
    requires k <= |ops| && (k < |ops| ==> Places(ops[k]))
    requires forall j :: 0 <= j < |ops| && (j > k || k == |ops|) ==> !Places(ops[j])
    ensures ApplyAll(Fresh(reentry), ops).nextId == Loads(ops)
    ensures ApplyAll(Fresh(reentry), ops).active ==
      if k < |ops| && ops[k].DoLoad? then Some(Instance(Loads(ops[..k]), ops[k].gui)) else None
  {
    if ops == [] {
    } else {
      var n := |ops| - 1;
      if k == n {
        NumbersAreLoads(reentry, ops[..n]);
      } else {
        ActiveAsLastLoaded(reentry, ops[..n], if k < n then k else n);
        assert k < n ==> ops[..n][..k] == ops[..k];
      }
    }
  }

  lemma {:induction false} InstanceIdsFresh(reentry: seq<seq<TimerCall>>, ops: seq<Op>)
    ensures var h := ApplyAll(Fresh(reentry), ops); h.active.Some? ==> h.active.value.id < h.nextId
  {
    if ops != [] {
      InstanceIdsFresh(reentry, ops[..|ops| - 1]);
    }
  }

  /** A load over a loaded plugin that leaves its unregistering to the host keeps every timer of the
      prior plugin: with no timer call made meanwhile, the registry is clean exactly if it was empty. */
  lemma SilentLoadKeepsTimers(reentry: seq<seq<TimerCall>>, ops: seq<Op>, gui: Option<GuiExt>)
    requires TimersOwned(ApplyAll(Fresh(reentry), ops))
    requires TimerCalls(ApplyAll(Fresh(reentry), ops), DoLoad(NoFault, gui)) == []
    ensures var h := ApplyAll(Fresh(reentry), ops);
      TimersOwned(Load(h, NoFault, gui)) <==> h.world.registry.timers == []
  {
    InstanceIdsFresh(reentry, ops);
    EveryRegistryOk(reentry, ops);
    var h := ApplyAll(Fresh(reentry), ops);
    ApplyKeepsRegistry(h, DoLoad(NoFault, gui));
    assert Load(h, NoFault, gui).world.registry == h.world.registry;
    if h.world.registry.timers != [] {
      assert h.world.registry.timers[0] in h.world.registry.timers;
    }
  }

  /** A plugin that registers a timer while it is created and then fails to be activated leaves the
      timer behind. */
  lemma FailedLoadLeavesTimer(period: nat)
    ensures var reentry := [[], [], [Register(0, period)]];
      !TimersOwned(Load(Fresh(reentry), ActivateFails, None))
  {
    var reentry: seq<seq<TimerCall>> := [[], [], [Register(0, period)]];
    var h := Fresh(reentry);
    UpDownLength(0, 3);
    assert reentry[..3] == reentry && reentry[..2] == [[], []] && reentry[..2][..1] == [[]] && reentry[..1][..0] == [];
    assert Flat(reentry[..1]) == [] && Flat(reentry[..2]) == [];
    assert Flat(reentry) == [Register(0, period)];
    OneCall(h.world.registry, Register(0, period));
    MadeRegistry(h.world, LoadCalls(h, ActivateFails));
    assert reentry[..Min(6, 3)] == reentry;
    var r := Load(h, ActivateFails, None).world.registry;
    assert r.timers[0] in r.timers;
  }
}
