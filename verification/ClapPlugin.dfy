/** The CLAP host object and its editor view wrapper, with every field updated where the source does.
    Plugins call the timer registry from inside the host's calls into them. */
module ClapPlugin {
  import opened Wrappers
  import opened ClapTimers
  import opened ClapLifecycle
  import Bits

  lemma {:induction false} FirstIsErased(timers: seq<Timer>, id: nat, i: nat)
    requires i < |timers| && timers[i].id == id && forall j :: 0 <= j < i ==> timers[j].id != id
    ensures WithoutTimer(timers, id) == timers[..i] + timers[i + 1..]
  {
    if i == 0 {
    } else {
      FirstIsErased(timers[1..], id, i - 1);
    }
  }

  lemma {:induction false} NoneErased(timers: seq<Timer>, id: nat)
    requires forall j :: 0 <= j < |timers| ==> timers[j].id != id
    ensures WithoutTimer(timers, id) == timers
  {
    if timers == [] {
    } else {
      NoneErased(timers[1..], id);
    }
  }

  class TimerRegistry {
    var timers: seq<Timer>
    var nextTimerId: nat
    var issued: nat

    ghost function Model(): Registry
      reads this
    {
      Registry(timers, nextTimerId, issued)
    }

    constructor ()
      ensures Model() == Blank()
    {
      timers, nextTimerId, issued := [], 1, 0;
    }

    method HostTimerRegister(owner: nat, period: nat) returns (id: nat)
      modifies this
      ensures Model() == PerformOne(old(Model()), Register(owner, period)) && id == old(nextTimerId)
    {
      var clamped := if period < 16 then 16 else period;
      id := nextTimerId;
      nextTimerId := (nextTimerId + 1) % Bits.WORD32;
      timers := timers + [Timer(id, clamped, owner, issued)];
      issued := issued + 1;
    }

    method HostTimerUnregister(id: nat) returns (found: bool)
      modifies this
      ensures Model() == PerformOne(old(Model()), Unregister(id))
      ensures found <==> exists i :: 0 <= i < |old(timers)| && old(timers)[i].id == id
    {
      var i := 0;
      while i < |timers|
        invariant i <= |timers| && Model() == old(Model())
        invariant forall j :: 0 <= j < i ==> timers[j].id != id
      {
        if timers[i].id == id {
          FirstIsErased(timers, id, i);
          timers := timers[..i] + timers[i + 1..];
          return true;
        }
        i := i + 1;
      }
      NoneErased(timers, id);
      return false;
    }

    method Clear()
      modifies this
      ensures Model() == Cleared(old(Model()))
    {
      timers := [];
    }

    /** What plugins do from inside a call. */
    method Reenter(calls: seq<TimerCall>)
      modifies this
      ensures Model() == Perform(old(Model()), calls)
    {
      var i := 0;
      while i < |calls|
        invariant i <= |calls| && Model() == Perform(old(Model()), calls[..i])
      {
        assert calls[..i + 1][..i] == calls[..i];
        match calls[i] {
          case Register(owner, period) => var _ := HostTimerRegister(owner, period);
          case Unregister(id) => var _ := HostTimerUnregister(id);
        }
        i := i + 1;
      }
      assert calls[..i] == calls;
    }
  }

  /** The calls made into plugin modules, and what plugins will do from inside the coming ones. */
  class Sdk {
    const registry: TimerRegistry
    var log: seq<Call>
    var reentry: seq<seq<TimerCall>>

    ghost function Model(): World
      reads this, registry
    {
      World(log, reentry, registry.Model())
    }

    constructor (registry: TimerRegistry, reentry: seq<seq<TimerCall>>)
      ensures this.registry == registry && log == [] && this.reentry == reentry
    {
      this.registry, this.log, this.reentry := registry, [], reentry;
    }

    method Make(c: Call)
      modifies this, registry
      ensures Model() == MadeOne(old(Model()), c)
    {
      log := log + [c];
      if reentry != [] {
        var script := reentry[0];
        reentry := reentry[1..];
        registry.Reenter(script);
      }
    }

    /** Releases a resource on the way to `goal`, where it and all below it are released. */
    method Undo(id: nat, r: Resource, ghost goal: World)
      requires Rank(r) < LOADED && Made(Model(), Down(id, Rank(r) + 1)) == goal
      modifies this, registry
      ensures Made(Model(), Down(id, Rank(r))) == goal
    {
      DownStep(Model(), id, Rank(r) + 1);
      Make(Release(id, r));
    }
  }

  class ActiveClap {
    const sdk: Sdk
    const id: nat
    const gui: Option<GuiExt>
    var dlHandle: bool
    var entryInit: bool
    var plugin: bool
    var active: bool
    var processing: bool

    ghost predicate FullyUp()
      reads this
    {
      dlHandle && entryInit && plugin && active && processing
    }

    ghost function Model(): Instance {
      Instance(id, gui)
    }

    constructor (sdk: Sdk, id: nat, gui: Option<GuiExt>)
      ensures FullyUp() && this.sdk == sdk && Model() == Instance(id, gui)
    {
      this.sdk, this.id, this.gui := sdk, id, gui;
      dlHandle, entryInit, plugin, active, processing := true, true, true, true, true;
    }

    /** The part of the teardown that talks to the plugin instance. */
    method DestroyPlugin(ghost goal: World)
      requires FullyUp() && Made(sdk.Model(), Down(id, LOADED)) == goal
      modifies this`plugin, this`active, this`processing, sdk, sdk.registry
      ensures Made(sdk.Model(), Down(id, 2)) == goal && !plugin && !active && !processing
    {
      if processing {
        sdk.Undo(id, Processing, goal);
        processing := false;
      }
      if active {
        sdk.Undo(id, Active, goal);
        active := false;
      }
      sdk.Undo(id, Plugin, goal);
      plugin := false;
    }

    method TearDownActive()
      requires FullyUp()
      modifies this, sdk, sdk.registry
      ensures sdk.Model() == Made(old(sdk.Model()), TearDownCalls(Some(Model())))
      ensures !dlHandle && !entryInit && !plugin && !active && !processing
    {
      ghost var goal := Made(sdk.Model(), Down(id, LOADED));
      if plugin {
        DestroyPlugin(goal);
      }
      if entryInit {
        sdk.Undo(id, Entry, goal);
        entryInit := false;
      }
      if dlHandle {
        sdk.Undo(id, Handle, goal);
        dlHandle := false;
      }
    }
  }

  datatype AttachResult = ResultOk | ResultFalse

  class ClapViewWrapper {
    const sdk: Sdk
    const id: nat
    const gui: GuiExt
    var created: bool
    var shown: bool
    var embedded: bool

    ghost function Model(): View
      reads this
    {
      View(Instance(id, Some(gui)), created, shown, embedded)
    }

    /** Creates the GUI at once; `createOk` is the plugin's answer. */
    constructor (sdk: Sdk, id: nat, gui: GuiExt, createOk: bool)
      modifies sdk, sdk.registry
      ensures this.sdk == sdk
      ensures Model() == View(Instance(id, Some(gui)), gui.hasCreate && createOk, false, false)
      ensures sdk.Model() == Made(old(sdk.Model()), if gui.hasCreate && createOk then [Acquire(id, Gui)] else [])
    {
      this.sdk, this.id, this.gui := sdk, id, gui;
      created, shown, embedded := false, false, false;
      new;
      MadeSingle(sdk.Model(), Acquire(id, Gui));
      if gui.hasCreate {
        if createOk {
          sdk.Make(Acquire(id, Gui));
          created := true;
        }
      }
    }

    /** The calls that take the GUI down, in the destructor and in `removed`. */
    method HideAndDestroy()
      modifies sdk, sdk.registry
      ensures sdk.Model() == Made(old(sdk.Model()), DropViewCalls(Some(Model())))
    {
      if created {
        MadeSingle(sdk.Model(), Hide(id));
        assert [Hide(id), Release(id, Gui)][1..] == [Release(id, Gui)];
        if shown && gui.hasHide {
          sdk.Make(Hide(id));
        }
        MadeSingle(sdk.Model(), Release(id, Gui));
        if gui.hasDestroy {
          sdk.Make(Release(id, Gui));
        }
      }
    }

    method Destruct()
      modifies this, sdk, sdk.registry
      ensures sdk.Model() == Made(old(sdk.Model()), DropViewCalls(Some(old(Model()))))
      ensures Model() == old(Model()).(created := false, shown := false, embedded := false)
    {
      HideAndDestroy();
      created := false;
      shown := false;
      embedded := false;
    }

    method Attached(supported: bool, parentOk: bool, showOk: bool) returns (result: AttachResult)
      modifies this, sdk, sdk.registry
      ensures result.ResultOk? ==> embedded && (gui.hasShow ==> shown)
      ensures created == old(created) && (shown ==> created || old(shown))
      ensures forall h: Host :: h.view == Some(old(Model())) && h.world == old(sdk.Model()) ==>
        Attach(h, supported, parentOk, showOk) == h.(view := Some(Model()), world := sdk.Model())
    {
      MadeSingle(sdk.Model(), Show(id));
      if !supported {
        return ResultFalse;
      }
      if !created {
        return ResultFalse;
      }
      if !parentOk {
        return ResultFalse;
      }
      embedded := true;
      if gui.hasShow {
        if !showOk {
          return ResultFalse;
        }
        sdk.Make(Show(id));
        shown := true;
      }
      return ResultOk;
    }

    method Removed()
      requires shown ==> created
      modifies this, sdk, sdk.registry
      ensures sdk.Model() == Made(old(sdk.Model()), DropViewCalls(Some(old(Model()))))
      ensures Model() == old(Model()).(created := false, shown := false, embedded := false)
    {
      HideAndDestroy();
      shown := false;
      embedded := false;
      created := false;
    }
  }

  class ClapPlugin {
    const sdk: Sdk
    var active: ActiveClap?
    var editorView: ClapViewWrapper?
    var nextId: nat

    ghost function Owned(): set<object>
      reads this
    {
      {this, sdk, sdk.registry}
      + (if active == null then {} else {active})
      + (if editorView == null then {} else {editorView})
    }

    ghost predicate Valid()
      reads Owned()
    {
      && (active != null ==> active.sdk == sdk && active.FullyUp())
      && (editorView != null ==> editorView.sdk == sdk && (editorView.shown ==> editorView.created))
    }

    ghost function Model(): Host
      reads Owned()
    {
      Host(if active == null then None else Some(active.Model()),
           if editorView == null then None else Some(editorView.Model()),
           nextId, sdk.Model())
    }

    constructor (sdk: Sdk)
      ensures Valid() && this.sdk == sdk && fresh(Owned() - {sdk, sdk.registry})
      ensures sdk.log == [] && sdk.registry.Model() == Blank() ==> Model() == Fresh(sdk.reentry)
    {
      this.sdk := sdk;
      active, editorView := null, null;
      nextId := 0;
    }

    method ResetEditorView()
      requires Valid()
      modifies this`editorView, editorView, sdk, sdk.registry
      ensures Valid() && editorView == null
      ensures Model() == ReleaseView(old(Model()))
    {
      if editorView != null {
        editorView.Destruct();
        editorView := null;
      }
    }

    /** Acquires the `n`-th resource. */
    method Climb(id: nat, n: nat, ghost w: World)
      requires 0 < n <= LOADED && sdk.Model() == Made(w, Up(id, n - 1))
      modifies sdk, sdk.registry
      ensures sdk.Model() == Made(w, Up(id, n))
    {
      UpStep(w, id, n);
      sdk.Make(Acquire(id, ResourceAt(n - 1)));
    }

    /** The last `n` lines before the return of a failing branch. */
    method Unwind(id: nat, n: nat)
      requires 0 < n < LOADED
      modifies sdk, sdk.registry
      ensures sdk.Model() == Made(old(sdk.Model()), Down(id, n))
    {
      ghost var goal := Made(sdk.Model(), Down(id, n));
      if n >= 4 {
        sdk.Undo(id, Active, goal);
      }
      if n >= 3 {
        sdk.Undo(id, Plugin, goal);
      }
      if n >= 2 {
        sdk.Undo(id, Entry, goal);
      }
      sdk.Undo(id, Handle, goal);
    }

    /** The calls of a load that stops at `fault`, as the source's branches make them. What a plugin does
        while it is initialised or fails to be activated is part of the script of the call before. */
    method TryLoad(id: nat, fault: Fault) returns (error: nat)
      modifies sdk, sdk.registry
      ensures error == ErrorCode(fault)
      ensures fault.NoFault? ==> sdk.Model() == Made(old(sdk.Model()), Up(id, LOADED))
      ensures !fault.NoFault? ==>
        sdk.Model() == Made(old(sdk.Model()), Up(id, Reached(fault)) + Down(id, Reached(fault)))
    {
      ghost var w := sdk.Model();
      MadeAppends(w, Up(id, Reached(fault)), Down(id, Reached(fault)));
      if fault.DlopenFails? {
        return 1;
      }
      Climb(id, 1, w);
      if fault.NoEntrySymbol? || fault.NullMethods? || fault.EntryInitFails? {
        Unwind(id, 1);
        return if fault.EntryInitFails? then 4 else 2;
      }
      Climb(id, 2, w);
      if fault.NoFactory? || fault.NoEffect? || fault.CreateFails? {
        Unwind(id, 2);
        return if fault.CreateFails? then 4 else 3;
      }
      Climb(id, 3, w);
      if fault.PluginInitFails? || fault.ActivateFails? {
        Unwind(id, 3);
        return 4;
      }
      Climb(id, 4, w);
      if fault.StartFails? {
        Unwind(id, 4);
        return 4;
      }
      Climb(id, 5, w);
      return 0;
    }

    /** Publishes the new plugin, then tears down the prior one. */
    method Exchange(next: ActiveClap?)
      requires Valid() && editorView == null
      requires next != null ==> next.sdk == sdk && next.FullyUp() && next != active
      modifies `active, active, sdk, sdk.registry
      ensures Valid() && active == next
      ensures Model() == old(Model()).(
        active := if next == null then None else Some(next.Model()),
        world := Made(old(sdk.Model()), TearDownCalls(old(Model()).active)))
    {
      var prior := active;
      active := next;
      if prior != null {
        prior.TearDownActive();
      }
    }

    /** The end of a successful load: the prior plugin's view goes first, then the plugins change over. */
    method Install(id: nat, gui: Option<GuiExt>)
      requires Valid()
      modifies `active, `editorView, active, editorView, sdk, sdk.registry
      ensures Valid() && active != null && fresh(active) && editorView == null
      ensures Model() == old(Model()).(
        active := Some(Instance(id, gui)), view := None,
        world := Made(Made(old(sdk.Model()), DropViewCalls(old(Model()).view)), TearDownCalls(old(Model()).active)))
    {
      ghost var h := Model();
      var loaded := new ActiveClap(sdk, id, gui);
      ResetEditorView();
      assert Model() == ReleaseView(h);
      Exchange(loaded);
    }

    method LoadPlugin(fault: Fault, gui: Option<GuiExt>) returns (error: nat)
      requires Valid()
      modifies Owned()
      ensures Valid() && fresh(Owned() - old(Owned()))
      ensures error == ErrorCode(fault)
      ensures Model() == Load(old(Model()), fault, gui)
    {
      ghost var h := Model();
      var id := nextId;
      LoadInSteps(h, gui);
      nextId := nextId + 1;
      error := TryLoad(id, fault);
      if error == 0 {
        Install(id, gui);
      }
    }

    method UnloadPlugin()
      requires Valid()
      modifies Owned()
      ensures Valid() && fresh(Owned() - old(Owned()))
      ensures Model() == Unload(old(Model()))
    {
      ResetEditorView();
      sdk.registry.Clear();
      assert sdk.Model() == ClearedWorld(old(Model()));
      Exchange(null);
    }

    method AcquireEditorView(createOk: bool) returns (view: ClapViewWrapper?)
      requires Valid()
      modifies Owned()
      ensures Valid() && fresh(Owned() - old(Owned()))
      ensures view == null <==> active == null || active.gui.None?
      ensures view != null ==> view == editorView
      ensures Model() == AcquireView(old(Model()), createOk)
    {
      if active == null || active.gui.None? {
        return null;
      }
      if editorView == null {
        editorView := new ClapViewWrapper(sdk, active.id, active.gui.value, createOk);
      }
      return editorView;
    }

    method ReleaseEditorView()
      requires Valid()
      modifies Owned()
      ensures Valid() && fresh(Owned() - old(Owned()))
      ensures Model() == ReleaseView(old(Model()))
    {
      ResetEditorView();
    }

    method AttachView(supported: bool, parentOk: bool, showOk: bool) returns (result: AttachResult)
      requires Valid() && editorView != null
      modifies Owned()
      ensures Valid() && Owned() == old(Owned())
      ensures Model() == Attach(old(Model()), supported, parentOk, showOk)
    {
      result := editorView.Attached(supported, parentOk, showOk);
    }

    method RemoveView()
      requires Valid() && editorView != null
      modifies Owned()
      ensures Valid() && Owned() == old(Owned())
      ensures Model() == ClapLifecycle.Removed(old(Model()))
    {
      editorView.Removed();
    }
  }
}
