/** The plugin chain object: parallel arrays that the control thread stores into one element at
    a time, and the audio thread's walk over the slots with its two scratch buffers. */
module PluginChain {
  import opened Wrappers
  import opened ChainSpec
  import opened SlotLifecycle

  /** The snapshots of all slots after each of a series of stores into slot `i`. */
  function Writes(base: seq<Slot>, i: nat, stores: seq<Slot>): (r: seq<seq<Slot>>)
    requires i < |base|
    ensures |r| == |stores|
  {
    seq(|stores|, k requires 0 <= k < |stores| => base[i := stores[k]])
  }

  lemma WritesAppend(base: seq<Slot>, i: nat, a: seq<Slot>, x: Slot, b: seq<Slot>)
    requires i < |base|
    ensures Writes(base, i, a) + Writes(base[i := x], i, b) == Writes(base, i, a + b)
  {
    forall k | 0 <= k < |b|
      ensures base[i := x][i := b[k]] == base[i := b[k]]
    {
    }
  }

  /** One more store into slot `i` adds one more snapshot. */
  lemma WritesSnoc(base: seq<Slot>, i: nat, stores: seq<Slot>, x: Slot)
    requires i < |base| && stores != []
    ensures Writes(base, i, stores + [x]) == Writes(base, i, stores) + [base[i := Last(stores)][i := x]]
    ensures base[i := Last(stores)][i := x] == base[i := Last(stores + [x])]
  {
    WritesAppend(base, i, stores, Last(stores), [x]);
    assert Writes(base[i := Last(stores)], i, [x]) == [base[i := Last(stores)][i := x]];
  }

  /** What the loads of one iteration of the audio thread's walk would find in each slot. */
  function Views(observed: seq<Slot>): (r: seq<ChainSpec.View>)
    ensures |r| == |observed|
  {
    seq(|observed|, i requires 0 <= i < |observed| => observed[i].View())
  }

  /** The first `done` slots have the new callback installed, the others are as they were. */
  ghost predicate InstalledUpTo(now: seq<Slot>, base: seq<Slot>, cb: Option<nat>, done: nat) {
    |now| == |base| &&
    forall j :: 0 <= j < |base| ==> now[j] == if j < done then Installed(base[j], j, cb) else base[j]
  }

  ghost predicate PartlyInstalled(now: seq<Slot>, base: seq<Slot>, cb: Option<nat>) {
    exists done: nat :: InstalledUpTo(now, base, cb, done)
  }

  /** The parallel arrays seen slot by slot. */
  function Zip(
    loaded: seq<bool>, bypass: seq<bool>, format: seq<Format>,
    vst3: seq<Option<Instance>>, vst2: seq<Option<Instance>>, clap: seq<Option<Instance>>): (r: seq<Slot>)
    requires |format| == |vst3| == |vst2| == |clap| == |bypass| == |loaded|
    ensures |r| == |format|
  {
    seq(|format|, i requires 0 <= i < |format| =>
      Slot(loaded[i], bypass[i], format[i], vst3[i], vst2[i], clap[i]))
  }

  class PluginChain {
    var format: seq<Format>
    var slotsVst3: seq<Option<Instance>>
    var slotsVst2: seq<Option<Instance>>
    var slotsClap: seq<Option<Instance>>
    var bypass: seq<bool>
    var loaded: seq<bool>
    var masterEnabled: bool
    var paramChangedCb: Option<nat>
    var nextId: nat

    const maxBlockSize: nat
    const scratchA: array<real>
    const scratchB: array<real>

    /** All slots as they stood after each store so far: what the audio thread may have seen. */
    ghost var trace: seq<seq<Slot>>

    ghost predicate Valid()
      reads this
    {
      && |format| == |slotsVst3| == |slotsVst2| == |slotsClap| == |bypass| == |loaded| == MAX_SLOTS
      && scratchA != scratchB
      && scratchA.Length == maxBlockSize && scratchB.Length == maxBlockSize
    }

    function Slots(): (r: seq<Slot>)
      requires Valid()
      reads this
      ensures |r| == MAX_SLOTS
    {
      Zip(loaded, bypass, format, slotsVst3, slotsVst2, slotsClap)
    }

    function State(): (r: ChainState)
      requires Valid()
      reads this
      ensures |r.slots| == MAX_SLOTS
    {
      ChainState(Slots(), masterEnabled, paramChangedCb, nextId)
    }

    constructor (blockSize: nat)
      ensures Valid() && State() == Fresh() && trace == []
      ensures maxBlockSize == blockSize && fresh(scratchA) && fresh(scratchB)
    {
      format := seq(MAX_SLOTS, _ => Empty);
      slotsVst3 := seq(MAX_SLOTS, _ => None);
      slotsVst2 := seq(MAX_SLOTS, _ => None);
      slotsClap := seq(MAX_SLOTS, _ => None);
      bypass := seq(MAX_SLOTS, _ => false);
      loaded := seq(MAX_SLOTS, _ => false);
      masterEnabled := false;
      paramChangedCb := None;
      nextId := 0;
      maxBlockSize := blockSize;
      scratchA := new real[blockSize](_ => 0.0);
      scratchB := new real[blockSize](_ => 0.0);
      trace := [];
    }

    // ---- Single stores ----

    method StoreLoaded(i: nat, value: bool)
      requires Valid() && i < MAX_SLOTS
      modifies this`loaded, this`trace
      ensures Valid()
      ensures Slots() == old(Slots())[i := old(Slots())[i].(loaded := value)]
      ensures trace == old(trace) + [Slots()]
    {
      loaded := loaded[i := value];
      trace := trace + [Slots()];
    }

    method StoreFormat(i: nat, value: Format)
      requires Valid() && i < MAX_SLOTS
      modifies this`format, this`trace
      ensures Valid()
      ensures Slots() == old(Slots())[i := old(Slots())[i].(format := value)]
      ensures trace == old(trace) + [Slots()]
    {
      format := format[i := value];
      trace := trace + [Slots()];
    }

    /** Sets slot `i`'s pointer in the array of one format, or changes the instance behind it. */
    method StorePointer(i: nat, f: Format, value: Option<Instance>)
      requires Valid() && i < MAX_SLOTS && f != Empty
      modifies this`slotsVst3, this`slotsVst2, this`slotsClap, this`trace
      ensures Valid()
      ensures Slots() == old(Slots())[i := old(Slots())[i].WithPointer(f, value)]
      ensures trace == old(trace) + [Slots()]
    {
      match f {
        case Vst3 => slotsVst3 := slotsVst3[i := value];
        case Vst2 => slotsVst2 := slotsVst2[i := value];
        case Clap => slotsClap := slotsClap[i := value];
      }
      trace := trace + [Slots()];
    }

    // ---- Control thread ----

    method TearDown(i: nat)
      requires Valid() && i < MAX_SLOTS
      modifies this`slotsVst3, this`slotsVst2, this`slotsClap, this`format, this`trace
      ensures Valid()
      ensures Slots() == old(Slots())[i := Last(TearDownStores(old(Slots())[i]))]
      ensures trace == old(trace) + Writes(old(Slots()), i, TearDownStores(old(Slots())[i]))
    {
      ghost var base, s := Slots(), Slots()[i];
      var f := format[i];
      match f {
        case Empty =>
        case Vst3 =>
          if slotsVst3[i].Some? {
            StorePointer(i, f, Some(slotsVst3[i].value.(ready := false)));
            StorePointer(i, f, None);
          }
        case Vst2 =>
          if slotsVst2[i].Some? {
            StorePointer(i, f, Some(slotsVst2[i].value.(ready := false)));
            StorePointer(i, f, None);
          }
        case Clap =>
          if slotsClap[i].Some? {
            StorePointer(i, f, Some(slotsClap[i].value.(ready := false)));
            StorePointer(i, f, None);
          }
      }
      StoreFormat(i, Empty);
      ghost var ts := TearDownStores(s);
      assert Writes(base, i, [ts[0]]) == [base[i := ts[0]]];
      if |ts| == 3 {
        WritesSnoc(base, i, [ts[0]], ts[1]);
        WritesSnoc(base, i, [ts[0], ts[1]], ts[2]);
      }
    }

    /** Clears a slot: the gate first, so that the audio thread skips it from then on. */
    method Vacate(i: nat)
      requires Valid() && i < MAX_SLOTS
      modifies this`loaded, this`slotsVst3, this`slotsVst2, this`slotsClap, this`format, this`trace
      ensures Valid()
      ensures Slots() == old(Slots())[i := Last(UnloadStores(old(Slots())[i]))]
      ensures trace == old(trace) + Writes(old(Slots()), i, UnloadStores(old(Slots())[i]))
    {
      ghost var base, s := Slots(), Slots()[i];
      ghost var s0 := s.(loaded := false);
      StoreLoaded(i, false);
      assert Writes(base, i, [s0]) == [base[i := s0]];
      TearDown(i);
      WritesAppend(base, i, [s0], s0, TearDownStores(s0));
    }

    /** The plugin loaded: mark it so, publish format and gate, and only then route its edits. */
    method Announce(i: nat, f: Format, id: nat)
      requires Valid() && i < MAX_SLOTS && f != Empty
      modifies this`loaded, this`slotsVst3, this`slotsVst2, this`slotsClap, this`format, this`trace
      ensures Valid()
      ensures var stores := AnnounceStores(old(Slots())[i], i, f, id, paramChangedCb);
        && Slots() == old(Slots())[i := Last(stores)]
        && trace == old(trace) + Writes(old(Slots()), i, stores)
    {
      ghost var base, s := Slots(), Slots()[i];
      ghost var s1 := s.WithPointer(f, Some(Instance(id, true, None)));
      StorePointer(i, f, Some(Instance(id, true, None)));
      assert Writes(base, i, [s1]) == [base[i := s1]];
      ghost var s2 := s1.(format := f);
      StoreFormat(i, f);
      WritesSnoc(base, i, [s1], s2);
      ghost var s3 := s2.(loaded := true);
      StoreLoaded(i, true);
      WritesSnoc(base, i, [s1, s2], s3);
      assert trace == old(trace) + Writes(base, i, [s1, s2, s3]);
      if paramChangedCb.Some? {
        StorePointer(i, f, Some(Instance(id, true, Wrap(paramChangedCb, i))));
        WritesSnoc(base, i, [s1, s2, s3], s3.WithPointer(f, Some(Instance(id, true, Wrap(paramChangedCb, i)))));
      }
    }

    /** Makes an instance in a vacated slot and loads it; drops it again if that fails. */
    method Build(i: nat, f: Format, result: nat)
      requires Valid() && i < MAX_SLOTS && f != Empty
      modifies this
      ensures Valid()
      ensures var built := BuildStores(old(Slots())[i], i, f, result == 0, old(nextId), paramChangedCb);
        && Slots() == old(Slots())[i := Last(built)]
        && trace == old(trace) + Writes(old(Slots()), i, built)
      ensures nextId == old(nextId) + 1
      ensures paramChangedCb == old(paramChangedCb) && masterEnabled == old(masterEnabled)
    {
      ghost var base, s := Slots(), Slots()[i];
      var id := nextId;
      nextId := nextId + 1;
      ghost var made := s.WithPointer(f, Some(Instance(id, false, None)));
      StorePointer(i, f, Some(Instance(id, false, None)));
      assert Writes(base, i, [made]) == [base[i := made]];
      if result == 0 {
        Announce(i, f, id);
        WritesAppend(base, i, [made], made, AnnounceStores(made, i, f, id, paramChangedCb));
      } else {
        StorePointer(i, f, None);
        WritesSnoc(base, i, [made], made.WithPointer(f, None));
      }
    }

    /** What follows the index check of a load: vacate the slot, then build in it. */
    method Replace(i: nat, detected: Format, result: nat)
      requires Valid() && i < MAX_SLOTS
      modifies this
      ensures Valid()
      ensures var stores := LoadStores(old(Slots())[i], i, detected, result == 0, old(nextId), paramChangedCb);
        && Slots() == old(Slots())[i := Last(stores)]
        && trace == old(trace) + Writes(old(Slots()), i, stores)
      ensures nextId == old(nextId) + if detected.Empty? then 0 else 1
      ensures paramChangedCb == old(paramChangedCb) && masterEnabled == old(masterEnabled)
    {
      ghost var base := Slots();
      ghost var down := UnloadStores(base[i]);
      ghost var built := BuildStores(Last(down), i, detected, result == 0, nextId, paramChangedCb);
      Vacate(i);
      WritesAppend(base, i, down, Last(down), built);
      if detected == Empty {
        assert down + built == down;
        return;
      }
      Build(i, detected, result);
      assert Last(down + built) == Last(built);
    }

    /** Loads a plugin. `detected` is what the path looks like; `result` is the status the format's
        own `Load` returns, zero for success. */
    method LoadSlot(slotIdx: int, detected: Format, result: nat) returns (status: nat)
      requires Valid()
      modifies this
      ensures Valid()
      ensures State() == After(old(State()), Load(slotIdx, detected, result == 0))
      ensures status == (if !InRange(slotIdx) then 6 else if detected.Empty? then 2 else result)
      ensures trace == old(trace) +
        (if !InRange(slotIdx) then []
         else Writes(old(Slots()), slotIdx, SlotStores(old(State()), Load(slotIdx, detected, result == 0), slotIdx)))
    {
      if slotIdx < 0 || slotIdx >= MAX_SLOTS {
        return 6;
      }
      Replace(slotIdx, detected, result);
      return if detected == Empty then 2 else result;
    }

    method UnloadSlot(slotIdx: int) returns (status: nat)
      requires Valid()
      modifies this
      ensures Valid()
      ensures State() == After(old(State()), Unload(slotIdx))
      ensures status == (if !InRange(slotIdx) then 6 else if old(loaded[slotIdx]) then 0 else 1)
      ensures trace == old(trace) +
        (if !InRange(slotIdx) then []
         else Writes(old(Slots()), slotIdx, SlotStores(old(State()), Unload(slotIdx), slotIdx)))
    {
      if slotIdx < 0 || slotIdx >= MAX_SLOTS {
        return 6;
      }
      var was := loaded[slotIdx];
      Vacate(slotIdx);
      return if was then 0 else 1;
    }

    method SetSlotBypass(slotIdx: int, value: bool) returns (status: nat)
      requires Valid()
      modifies this`bypass, this`trace
      ensures Valid()
      ensures State() == After(old(State()), SetBypass(slotIdx, value))
      ensures status == (if InRange(slotIdx) then 0 else 6)
      ensures trace == old(trace) + (if InRange(slotIdx) then [Slots()] else [])
    {
      if slotIdx < 0 || slotIdx >= MAX_SLOTS {
        return 6;
      }
      bypass := bypass[slotIdx := value];
      trace := trace + [Slots()];
      return 0;
    }

    method SetChainEnabled(value: bool)
      requires Valid()
      modifies this`masterEnabled
      ensures Valid() && State() == After(old(State()), SetEnabled(value))
    {
      masterEnabled := value;
    }

    /** Installs the chain's callback on the instance of slot `i`, if there is one. */
    method InstallAt(i: nat)
      requires Valid() && i < MAX_SLOTS
      modifies this`slotsVst3, this`slotsVst2, this`slotsClap, this`trace
      ensures Valid()
      ensures Slots() == old(Slots())[i := Installed(old(Slots())[i], i, paramChangedCb)]
      ensures trace == old(trace) || trace == old(trace) + [Slots()]
    {
      var f := format[i];
      match f {
        case Empty =>
        case Vst3 =>
          if slotsVst3[i].Some? {
            StorePointer(i, f, Some(slotsVst3[i].value.(callback := Wrap(paramChangedCb, i))));
          }
        case Vst2 =>
          if slotsVst2[i].Some? {
            StorePointer(i, f, Some(slotsVst2[i].value.(callback := Wrap(paramChangedCb, i))));
          }
        case Clap =>
          if slotsClap[i].Some? {
            StorePointer(i, f, Some(slotsClap[i].value.(callback := Wrap(paramChangedCb, i))));
          }
      }
    }

    method SetParamChangedCallback(cb: Option<nat>)
      requires Valid()
      modifies this
      ensures Valid()
      ensures State() == After(old(State()), SetCallback(cb))
      ensures old(trace) <= trace
      ensures forall k :: |old(trace)| <= k < |trace| ==> PartlyInstalled(trace[k], old(Slots()), cb)
    {
      paramChangedCb := cb;
      ghost var base := Slots();
      assert base == old(Slots());
      for i := 0 to MAX_SLOTS
        invariant Valid() && paramChangedCb == cb && nextId == old(nextId) && masterEnabled == old(masterEnabled)
        invariant forall j :: 0 <= j < i ==> Slots()[j] == Installed(base[j], j, cb)
        invariant forall j :: i <= j < MAX_SLOTS ==> Slots()[j] == base[j]
        invariant old(trace) <= trace
        invariant forall k :: |old(trace)| <= k < |trace| ==> PartlyInstalled(trace[k], base, cb)
      {
        InstallAt(i);
        assert InstalledUpTo(Slots(), base, cb, i + 1);
      }
    }

    // ---- Audio thread ----

    /** Hands a block to plugin instance `id`. Whether or not it succeeds it may write to `dst`. */
    method RunPlugin<D>(plug: Plugins<D>, id: nat, d: D, cur: array<real>, dst: array<real>, n: nat)
      returns (ok: bool, d': D)
      requires cur != dst && n <= cur.Length && n <= dst.Length
      modifies dst
      ensures var o := plug(id, d, cur[..n]);
        ok == o.ok && d' == o.next && dst[..n] == Written(o, n)
      ensures dst[n..] == old(dst[n..])
    {
      var x := cur[..n];
      var o := plug(id, d, x);
      forall k | 0 <= k < n {
        dst[k] := o.sample(k);
      }
      assert cur[..n] == x;
      return o.ok, o.next;
    }

    /** Runs the instance a loaded, unbypassed slot shows, if it shows one of its format. */
    method TrySlot<D>(plug: Plugins<D>, s: Slot, d: D, cur: array<real>, dst: array<real>, n: nat)
      returns (ok: bool, d': D)
      requires s.loaded && !s.bypass
      requires cur != dst && n <= cur.Length && n <= dst.Length
      modifies dst
      ensures (d', if ok then dst[..n] else cur[..n]) == StepFold(plug, (d, cur[..n]), s.View())
      ensures ok <==> Succeeds(plug, s.View(), d, cur[..n])
      ensures SlotActs(plug, s.View(), d, cur[..n], d', if ok then dst[..n] else cur[..n])
      ensures dst[n..] == old(dst[n..])
    {
      ok, d' := false, d;
      match s.format {
        case Vst3 =>
          if s.vst3.Some? {
            ok, d' := RunPlugin(plug, s.vst3.value.id, d, cur, dst, n);
          }
        case Vst2 =>
          if s.vst2.Some? {
            ok, d' := RunPlugin(plug, s.vst2.value.id, d, cur, dst, n);
          }
        case Clap =>
          if s.clap.Some? {
            ok, d' := RunPlugin(plug, s.clap.value.id, d, cur, dst, n);
          }
        case Empty =>
      }
    }

    method Copy(dst: array<real>, src: array<real>, n: nat)
      requires dst != src && n <= dst.Length && n <= src.Length
      modifies dst
      ensures dst[..] == src[..n] + old(dst[..])[n..]
    {
      forall k | 0 <= k < n {
        dst[k] := src[k];
      }
    }

    /** One block through the chain. `enabled` and `observed[i]` are what the loads of the master
        flag and of slot `i`'s variables returned when the walk got to them; the control thread may
        have stored anything in between, so nothing relates one entry to the next. */
    method Process<D>(
      plug: Plugins<D>, enabled: bool, observed: seq<Slot>, d: D,
      input: array<real>, output: array<real>, frames: int)
      returns (d': D, ghost trace: seq<(D, Samples)>)
      requires Valid() && |observed| == MAX_SLOTS
      requires input != output && {input, output} !! {scratchA, scratchB}
      requires Min(frames, maxBlockSize) <= input.Length && Min(frames, maxBlockSize) <= output.Length
      modifies output, scratchA, scratchB
      ensures (d', output[..]) ==
        ProcessResult(plug, maxBlockSize, Observation(enabled, Views(observed)), d,
                      input[..], old(output[..]), frames)
      ensures frames <= 0 || !enabled ==> d' == d
      ensures frames <= 0 ==> output[..] == old(output[..])
      ensures frames > 0 ==>
        var n := if frames <= maxBlockSize then frames else maxBlockSize;
        && output[n..] == old(output[n..])
        && (!enabled ==> output[..n] == input[..n])
        && (enabled ==> Leads(plug, Views(observed), trace, d, input[..n], d', output[..n]))
    {
      d', trace := d, [];
      if frames <= 0 {
        return;
      }
      var n := if frames > maxBlockSize then maxBlockSize else frames;
      ghost var x := input[..n];
      assert input[..][..n] == x;
      if !enabled {
        Copy(output, input, n);
        return;
      }
      var cur := input;
      var scratch := [scratchA, scratchB];
      var which := 0;
      var touched := false;
      ghost var views := Views(observed);
      for i := 0 to MAX_SLOTS
        invariant which == 0 || which == 1
        invariant cur == if touched then scratch[1 - which] else input
        invariant (d', cur[..n]) == Fold(plug, views[..i], d, x)
        invariant input[..n] == x && output[..] == old(output[..])
      {
        assert views[..i + 1][..i] == views[..i];
        assert Fold(plug, views[..i + 1], d, x) == StepFold(plug, (d', cur[..n]), views[i]);
        var s := observed[i];
        if !s.loaded {
          continue;
        }
        if s.bypass {
          continue;
        }
        var dst := scratch[which];
        var ok;
        ok, d' := TrySlot(plug, s, d', cur, dst, n);
        if !ok {
          continue;
        }
        cur := dst;
        which := 1 - which;
        touched := true;
      }
      assert views[..MAX_SLOTS] == views;
      trace := FoldTrace(plug, views, d, x);
      if touched {
        Copy(output, cur, n);
      } else {
        Copy(output, input, n);
      }
    }
  }
}
