/** One audio block through a CLAP plugin: topology checks, pending changes, mono and stereo paths. */
module ClapProcess {
  import opened Wrappers
  import opened Coalescing

  /** What a plugin writes: sample `i` of each channel, from the changes and samples it was given. */
  datatype Effect = Effect(
    mono: (seq<Edit>, seq<real>, nat) -> real,
    left: (seq<Edit>, seq<real>, seq<real>, nat) -> real,
    right: (seq<Edit>, seq<real>, seq<real>, nat) -> real,
    events: (seq<Edit>, seq<real>) -> seq<OutputEvent>)

  /** What a plugin pushes to the output list: a parameter value of the core space, or anything else. */
  datatype OutputEvent = ParamValue(edit: Edit) | OtherEvent

  /** The parameter values among them. */
  function ParamValues(events: seq<OutputEvent>): seq<Edit> {
    if events == [] then []
    else
      var k := |events| - 1;
      ParamValues(events[..k]) + if events[k].ParamValue? then [events[k].edit] else []
  }

  /** Which events are parameter values, and such values as events. */
  function Flags(events: seq<OutputEvent>): (f: seq<bool>)
    ensures |f| == |events|
  {
    seq(|events|, i requires 0 <= i < |events| => events[i].ParamValue?)
  }

  function Wrapped(edits: seq<Edit>): (events: seq<OutputEvent>)
    ensures |events| == |edits|
  {
    seq(|edits|, i requires 0 <= i < |edits| => ParamValue(edits[i]))
  }

  /** They come in order, each once, and nothing else comes. */
  lemma {:induction false} ParamValuesInOrder(events: seq<OutputEvent>) returns (at: seq<nat>)
    ensures Filters(at, Flags(events), events, Wrapped(ParamValues(events)))
  {
    if events == [] {
      at := [];
    } else {
      var n := |events| - 1;
      var before, x := events[..n], events[n];
      at := ParamValuesInOrder(before);
      FiltersOneMore(at, Flags(before), before, Wrapped(ParamValues(before)), x.ParamValue?, x);
      assert before + [x] == events;
      assert Flags(before) + [x.ParamValue?] == Flags(events);
      assert x.ParamValue? ==> Wrapped(ParamValues(before)) + [x] == Wrapped(ParamValues(events));
      at := if x.ParamValue? then at + [n] else at;
    }
  }

  /** Sample `i` of the block the host gets back: a stereo plugin hears the mono block on both sides,
      and its two outputs are averaged. */
  function HeardAt(e: Effect, stereo: bool, changes: seq<Edit>, block: seq<real>, i: nat): real {
    if stereo then 0.5 * (e.left(changes, block, block, i) + e.right(changes, block, block, i))
    else e.mono(changes, block, i)
  }

  /** A stereo plugin is heard exactly half way between its two sides, which have both heard the whole block; a
      mono plugin as it is. */
  lemma HeardHalfWay(e: Effect, stereo: bool, changes: seq<Edit>, block: seq<real>, i: nat)
    ensures var heard := HeardAt(e, stereo, changes, block, i);
      if stereo then
        heard - e.left(changes, block, block, i) == e.right(changes, block, block, i) - heard
      else heard == e.mono(changes, block, i)
  {
  }

  /** A stereo plugin whose sides agree with a mono effect when they hear the same sounds like that
      effect: duplicating and averaging add nothing and lose nothing. */
  lemma SymmetricStereoIsMono(e: Effect, changes: seq<Edit>, block: seq<real>, i: nat)
    requires e.left(changes, block, block, i) == e.mono(changes, block, i) == e.right(changes, block, block, i)
    ensures HeardAt(e, true, changes, block, i) == HeardAt(e, false, changes, block, i)
  {
  }

  class ClapProcessor {
    const inputChannels: nat
    const outputChannels: nat
    const maxBlockSize: nat
    const scratchInL: array<real>
    const scratchInR: array<real>
    const scratchOutL: array<real>
    const scratchOutR: array<real>
    var plugin: bool
    var processing: bool
    var steadyTime: int
    var pendingChanges: seq<Edit>

    ghost predicate Valid() {
      && (inputChannels == 2 || outputChannels == 2 ==>
            scratchInL.Length == scratchInR.Length == scratchOutL.Length == scratchOutR.Length == maxBlockSize)
      && scratchInL != scratchInR && scratchInL != scratchOutL && scratchInL != scratchOutR
      && scratchInR != scratchOutL && scratchInR != scratchOutR && scratchOutL != scratchOutR
    }

    constructor (inputChannels: nat, outputChannels: nat, maxBlockSize: nat)
      ensures Valid() && plugin && processing && steadyTime == 0 && pendingChanges == []
      ensures this.inputChannels == inputChannels && this.outputChannels == outputChannels
      ensures this.maxBlockSize == maxBlockSize
      ensures fresh(scratchInL) && fresh(scratchInR) && fresh(scratchOutL) && fresh(scratchOutR)
    {
      var cap := if inputChannels == 2 || outputChannels == 2 then maxBlockSize else 0;
      this.inputChannels, this.outputChannels, this.maxBlockSize := inputChannels, outputChannels, maxBlockSize;
      scratchInL := new real[cap](_ => 0.0);
      scratchInR := new real[cap](_ => 0.0);
      scratchOutL := new real[cap](_ => 0.0);
      scratchOutR := new real[cap](_ => 0.0);
      plugin, processing, steadyTime, pendingChanges := true, true, 0, [];
    }

    /** The plugin's own writes on the stereo path. */
    method RunStereo(frames: nat, e: Effect, changes: seq<Edit>, ghost block: seq<real>)
      requires Valid() && inputChannels == 2 && 0 < frames <= maxBlockSize
      requires scratchInL[..frames] == block == scratchInR[..frames]
      modifies scratchOutL, scratchOutR
      ensures forall k :: 0 <= k < frames ==>
        scratchOutL[k] == e.left(changes, block, block, k) && scratchOutR[k] == e.right(changes, block, block, k)
    {
      var i := 0;
      while i < frames
        invariant i <= frames
        invariant scratchInL[..frames] == block == scratchInR[..frames]
        invariant forall k :: 0 <= k < i ==>
          scratchOutL[k] == e.left(changes, block, block, k) && scratchOutR[k] == e.right(changes, block, block, k)
      {
        scratchOutL[i] := e.left(changes, scratchInL[..frames], scratchInR[..frames], i);
        scratchOutR[i] := e.right(changes, scratchInL[..frames], scratchInR[..frames], i);
        i := i + 1;
      }
    }

    /** The output list's push: only parameter values are kept. */
    method Collect(events: seq<OutputEvent>) returns (kept: seq<Edit>)
      ensures kept == ParamValues(events)
    {
      kept := [];
      for i := 0 to |events|
        invariant kept == ParamValues(events[..i])
      {
        assert events[..i + 1][..i] == events[..i];
        if events[i].ParamValue? {
          kept := kept + [events[i].edit];
        }
      }
      assert events[..|events|] == events;
    }

    /** A rejected block writes nothing and leaves the pending changes for a later one; an accepted block
        hands all of them over, is heard as `HeardAt` says on either path, and its plugin's own parameter
        changes go to the callback, if one is installed. */
    method Process(input: array<real>, output: array<real>, frames: int, e: Effect, callbackInstalled: bool)
      returns (processed: bool, reported: seq<Edit>)
      requires Valid() && input != output && frames <= input.Length && frames <= output.Length
      requires input != scratchInL && input != scratchInR && input != scratchOutL && input != scratchOutR
      requires output != scratchInL && output != scratchInR && output != scratchOutL && output != scratchOutR
      modifies this`steadyTime, this`pendingChanges, output, scratchInL, scratchInR, scratchOutL, scratchOutR
      ensures processed <==>
        && plugin && processing && 1 <= frames <= maxBlockSize
        && (inputChannels == outputChannels == 1 || inputChannels == outputChannels == 2)
      ensures reported ==
        if processed && callbackInstalled then ParamValues(e.events(old(pendingChanges), input[..frames])) else []
      ensures processed ==>
        && pendingChanges == [] && steadyTime == old(steadyTime) + frames
        && (forall k :: 0 <= k < frames ==>
              output[k] == HeardAt(e, inputChannels == 2, old(pendingChanges), input[..frames], k))
        && output[frames..] == old(output[frames..])
      ensures !processed ==>
        pendingChanges == old(pendingChanges) && steadyTime == old(steadyTime) && output[..] == old(output[..])
    {
      if !plugin || !processing {
        return false, [];
      }
      if frames <= 0 || frames > maxBlockSize {
        return false, [];
      }
      var isMonoMono := inputChannels == 1 && outputChannels == 1;
      var isStereoStereo := inputChannels == 2 && outputChannels == 2;
      if !isMonoMono && !isStereoStereo {
        return false, [];
      }
      if isStereoStereo && (scratchInL.Length < frames || scratchOutL.Length < frames) {
        return false, [];
      }
      var changes := pendingChanges;
      pendingChanges := [];
      ghost var block := input[..frames];
      var i := 0;
      if isStereoStereo {
        while i < frames
          invariant 0 <= i <= frames && pendingChanges == [] && steadyTime == old(steadyTime)
          invariant input[..frames] == block && output[..] == old(output[..])
          invariant scratchInL[..i] == block[..i] == scratchInR[..i]
        {
          scratchInL[i], scratchInR[i] := input[i], input[i];
          i := i + 1;
        }
        RunStereo(frames, e, changes, block);
        i := 0;
        while i < frames
          invariant 0 <= i <= frames && pendingChanges == [] && steadyTime == old(steadyTime)
          invariant input[..frames] == block
          invariant forall k :: 0 <= k < frames ==>
            scratchOutL[k] == e.left(changes, block, block, k) && scratchOutR[k] == e.right(changes, block, block, k)
          invariant forall k :: 0 <= k < i ==> output[k] == HeardAt(e, true, changes, block, k)
          invariant output[frames..] == old(output[frames..])
        {
          output[i] := 0.5 * (scratchOutL[i] + scratchOutR[i]);
          i := i + 1;
        }
      } else {
        while i < frames
          invariant 0 <= i <= frames && pendingChanges == [] && steadyTime == old(steadyTime)
          invariant input[..frames] == block
          invariant forall k :: 0 <= k < i ==> output[k] == e.mono(changes, block, k)
          invariant output[frames..] == old(output[frames..])
        {
          output[i] := e.mono(changes, input[..frames], i);
          i := i + 1;
        }
      }
      steadyTime := steadyTime + frames;
      reported := Collect(e.events(changes, input[..frames]));
      if !callbackInstalled {
        reported := [];
      }
      return true, reported;
    }
  }
}
