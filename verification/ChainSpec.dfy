/** What running one audio block through the plugin chain computes.

    A plugin is an abstract stateful transformer. It may succeed or fail, it moves the
    plugin world from one state to the next either way, and either way it may have
    written anything to the buffer it was given. */
module ChainSpec {
  import opened Wrappers

  type Samples = seq<real>

  datatype Outcome<D> = Outcome(ok: bool, sample: nat -> real, next: D)

  /** What plugin instance number `n` does in a given plugin world to a given input. */
  type Plugins<!D> = (nat, D, Samples) -> Outcome<D>

  // What the audio thread finds in a slot when it gets there: nothing to run, or an instance. The number
  // stands for the instance together with the parameter changes pending for it in that block.
  datatype View = Skip | Run(plugin: nat)

  /** What one call of `Process` read from the control thread's variables. Between two of these
      reads the control thread may have changed anything, so the views are unrelated. */
  datatype Observation = Observation(enabled: bool, views: seq<View>)

  function Written<D>(o: Outcome<D>, n: nat): (x: Samples)
    ensures |x| == n
  {
    seq(n, i requires 0 <= i => o.sample(i))
  }

  function StepFold<D>(plug: Plugins<D>, acc: (D, Samples), v: View): (r: (D, Samples))
    ensures |r.1| == |acc.1|
  {
    match v
    case Skip => acc
    case Run(p) =>
      var o := plug(p, acc.0, acc.1);
      if o.ok then (o.next, Written(o, |acc.1|)) else (o.next, acc.1)
  }

  /** The chain as a left fold over its slots in index order. */
  function Fold<D>(plug: Plugins<D>, views: seq<View>, d: D, x: Samples): (r: (D, Samples))
    ensures |r.1| == |x|
  {
    if views == [] then (d, x)
    else
      var k := |views| - 1;
      StepFold(plug, Fold(plug, views[..k], d, x), views[k])
  }

  /** The conversion of an unsigned 32-bit word to a signed one. */
  function ToInt32(u: nat): (r: int)
    requires u < 0x1_0000_0000
    ensures -0x8000_0000 <= r < 0x8000_0000 && (r == u || r == u - 0x1_0000_0000)
  {
    if u < 0x8000_0000 then u else u - 0x1_0000_0000
  }

  /** The whole effect of `Process` on the plugin world and on the output buffer. Samples of the
      output buffer past the processed frames keep what they held. */
  function ProcessResult<D>(
    plug: Plugins<D>, maxBlockSize: nat, obs: Observation, d: D,
    input: Samples, output: Samples, frames: int): (r: (D, Samples))
    requires Min(frames, maxBlockSize) <= |input| && Min(frames, maxBlockSize) <= |output|
    ensures |r.1| == |output|
  {
    if frames <= 0 then (d, output)
    else
      var n := Min(frames, maxBlockSize);
      var r := if obs.enabled then Fold(plug, obs.views, d, input[..n]) else (d, input[..n]);
      (r.0, r.1 + output[n..])
  }

  // ---- What is heard, told by the plugins alone ----

  /** A slot that is run, and whose plugin succeeds. */
  ghost predicate Succeeds<D>(plug: Plugins<D>, v: View, d: D, x: Samples) {
    v.Run? && plug(v.plugin, d, x).ok
  }

  /** What a slot's turn makes of the plugin world `d` and the samples `x`: a skipped slot changes nothing; a
      plugin that is run moves the world on, and if it succeeds every sample is the one it wrote. */
  ghost predicate SlotActs<D>(plug: Plugins<D>, v: View, d: D, x: Samples, d': D, x': Samples) {
    && d' == (if v.Run? then plug(v.plugin, d, x).next else d)
    && |x'| == |x|
    && forall i: nat :: i < |x| ==>
         x'[i] == if Succeeds(plug, v, d, x) then plug(v.plugin, d, x).sample(i) else x[i]
  }

  /** The worlds and samples between the slots' turns. */
  ghost predicate IsTrace<D>(plug: Plugins<D>, views: seq<View>, t: seq<(D, Samples)>) {
    && |t| == |views| + 1
    && forall k :: 0 <= k < |views| ==> SlotActs(plug, views[k], t[k].0, t[k].1, t[k + 1].0, t[k + 1].1)
  }

  /** A trace leads from world `d` and samples `x` to world `d'` and samples `x'`. */
  ghost predicate Leads<D>(
    plug: Plugins<D>, views: seq<View>, t: seq<(D, Samples)>, d: D, x: Samples, d': D, x': Samples)
  {
    IsTrace(plug, views, t) && t[0] == (d, x) && t[|views|] == (d', x')
  }

  lemma TraceGrows<D>(plug: Plugins<D>, views: seq<View>, v: View, t: seq<(D, Samples)>, d: D, x: Samples)
    requires IsTrace(plug, views, t) && SlotActs(plug, v, t[|views|].0, t[|views|].1, d, x)
    ensures IsTrace(plug, views + [v], t + [(d, x)])
  {
    var views', t' := views + [v], t + [(d, x)];
    forall k | 0 <= k < |views'| ensures SlotActs(plug, views'[k], t'[k].0, t'[k].1, t'[k + 1].0, t'[k + 1].1) {
      if k < |views| {
        assert SlotActs(plug, views[k], t[k].0, t[k].1, t[k + 1].0, t[k + 1].1);
      }
    }
  }

  lemma {:induction false} FoldTrace<D>(plug: Plugins<D>, views: seq<View>, d: D, x: Samples)
    returns (t: seq<(D, Samples)>)
    ensures Leads(plug, views, t, d, x, Fold(plug, views, d, x).0, Fold(plug, views, d, x).1)
  {
    if views == [] {
      t := [(d, x)];
    } else {
      var k := |views| - 1;
      t := FoldTrace(plug, views[..k], d, x);
      var r := Fold(plug, views, d, x);
      TraceGrows(plug, views[..k], views[k], t, r.0, r.1);
      assert views[..k] + [views[k]] == views;
      t := t + [r];
    }
  }

  /** What `Process` does, in terms of the plugins: at most `maxBlockSize` frames are processed, the others
      keep what they held; with the chain on, a trace leads from the input to the output. */
  lemma ProcessHeard<D>(
    plug: Plugins<D>, maxBlockSize: nat, obs: Observation, d: D, input: Samples, output: Samples, frames: int)
    returns (n: nat, t: seq<(D, Samples)>)
    requires Min(frames, maxBlockSize) <= |input| && Min(frames, maxBlockSize) <= |output|
    ensures n == if frames <= 0 then 0 else if frames <= maxBlockSize then frames else maxBlockSize
    ensures n <= |input| && n <= |output|
    ensures var (d', output') := ProcessResult(plug, maxBlockSize, obs, d, input, output, frames);
      && |output'| == |output| && output'[n..] == output[n..]
      && (frames > 0 && obs.enabled ==> Leads(plug, obs.views, t, d, input[..n], d', output'[..n]))
      && (frames <= 0 || !obs.enabled ==> d' == d && output'[..n] == input[..n])
  {
    n, t := 0, [];
    if frames > 0 {
      n := Min(frames, maxBlockSize);
      t := FoldTrace(plug, obs.views, d, input[..n]);
    }
  }

  /** There is one such trace. */
  lemma {:induction false} TraceIsUnique<D>(
    plug: Plugins<D>, views: seq<View>, t: seq<(D, Samples)>, t': seq<(D, Samples)>, k: nat)
    requires IsTrace(plug, views, t) && IsTrace(plug, views, t') && t[0] == t'[0] && k <= |views|
    ensures t[k] == t'[k]
  {
    if k == 0 {
    } else {
      TraceIsUnique(plug, views, t, t', k - 1);
      assert SlotActs(plug, views[k - 1], t[k - 1].0, t[k - 1].1, t[k].0, t[k].1);
      assert SlotActs(plug, views[k - 1], t'[k - 1].0, t'[k - 1].1, t'[k].0, t'[k].1);
      assert t[k].1 == t'[k].1;
    }
  }

  /** After turns without success the samples are as before them. */
  lemma {:induction false} SilentTurns<D>(plug: Plugins<D>, views: seq<View>, t: seq<(D, Samples)>, k: nat)
    requires IsTrace(plug, views, t) && k <= |views|
    requires forall j :: k <= j < |views| ==> !Succeeds(plug, views[j], t[j].0, t[j].1)
    ensures t[|views|].1 == t[k].1
    decreases |views| - k
  {
    if k == |views| {
    } else {
      SilentTurns(plug, views, t, k + 1);
      assert SlotActs(plug, views[k], t[k].0, t[k].1, t[k + 1].0, t[k + 1].1);
      assert t[k + 1].1 == t[k].1;
    }
  }

  /** With a success, what is heard is what the last successful plugin wrote, given the samples that reached
      it; without one it is the input. */
  lemma LastSuccessHeard<D>(plug: Plugins<D>, views: seq<View>, t: seq<(D, Samples)>, k: nat, i: nat)
    requires IsTrace(plug, views, t) && i < |t[|views|].1| && k <= |views|
    requires k < |views| ==> Succeeds(plug, views[k], t[k].0, t[k].1)
    requires forall j :: 0 <= j < |views| && (k == |views| || j > k) ==> !Succeeds(plug, views[j], t[j].0, t[j].1)
    ensures k < |views| ==> t[|views|].1[i] == plug(views[k].plugin, t[k].0, t[k].1).sample(i)
    ensures k == |views| ==> t[|views|].1 == t[0].1
  {
    if k < |views| {
      SilentTurns(plug, views, t, k + 1);
      assert SlotActs(plug, views[k], t[k].0, t[k].1, t[k + 1].0, t[k + 1].1);
    } else {
      SilentTurns(plug, views, t, 0);
    }
  }

  // ---- What the fold means ----

  /** The instances that were run, in order, each with whether it succeeded. */
  function Attempts<D>(plug: Plugins<D>, views: seq<View>, d: D, x: Samples): seq<(nat, bool)> {
    if views == [] then []
    else
      var k := |views| - 1;
      var acc := Fold(plug, views[..k], d, x);
      match views[k]
      case Skip => Attempts(plug, views[..k], d, x)
      case Run(p) => Attempts(plug, views[..k], d, x) + [(p, plug(p, acc.0, acc.1).ok)]
  }

  ghost predicate NoneSucceeded(attempts: seq<(nat, bool)>) {
    forall i :: 0 <= i < |attempts| ==> !attempts[i].1
  }

  /** With no successful slot the output is exactly the input. */
  lemma {:induction false} NoSuccessIsIdentity<D>(plug: Plugins<D>, views: seq<View>, d: D, x: Samples)
    requires NoneSucceeded(Attempts(plug, views, d, x))
    ensures Fold(plug, views, d, x).1 == x
  {
    if views == [] {
    } else {
      var k := |views| - 1;
      var before := Attempts(plug, views[..k], d, x);
      var all := Attempts(plug, views, d, x);
      assert before == all[..|before|];
      assert forall i :: 0 <= i < |before| ==> before[i] == all[i];
      NoSuccessIsIdentity(plug, views[..k], d, x);
      if views[k].Run? {
        assert !all[|before|].1;
      }
    }
  }

  /** Two plugin worlds that differ only in what failing plugins scribble. */
  ghost predicate SameButForScribbles<D(!new)>(plug: Plugins<D>, plug': Plugins<D>) {
    forall p: nat, d: D, x: Samples ::
      var o, o' := plug(p, d, x), plug'(p, d, x);
      o.ok == o'.ok && o.next == o'.next && (o.ok ==> Written(o, |x|) == Written(o', |x|))
  }

  /** A failed slot's writes never reach the output, nor any later slot. */
  lemma {:induction false} ScribblesNeverHeard<D(!new)>(
    plug: Plugins<D>, plug': Plugins<D>, views: seq<View>, d: D, x: Samples)
    requires SameButForScribbles(plug, plug')
    ensures Fold(plug, views, d, x) == Fold(plug', views, d, x)
  {
    if views == [] {
    } else {
      ScribblesNeverHeard(plug, plug', views[..|views| - 1], d, x);
    }
  }

  /** The slots that are run, in index order. */
  function Active(views: seq<View>): seq<View> {
    if views == [] then []
    else
      var k := |views| - 1;
      if views[k].Skip? then Active(views[..k]) else Active(views[..k]) + [views[k]]
  }

  /** Skipped slots might as well not be there. */
  lemma {:induction false} SkippedSlotsVanish<D>(plug: Plugins<D>, views: seq<View>, d: D, x: Samples)
    ensures Fold(plug, views, d, x) == Fold(plug, Active(views), d, x)
  {
    if views == [] {
    } else {
      var k := |views| - 1;
      SkippedSlotsVanish(plug, views[..k], d, x);
      if views[k].Run? {
        assert Active(views)[..|Active(views)| - 1] == Active(views[..k]);
      }
    }
  }

  /** A chain is the sequential composition of its parts, plugin state included. */
  lemma {:induction false} FoldComposes<D>(plug: Plugins<D>, a: seq<View>, b: seq<View>, d: D, x: Samples)
    ensures Fold(plug, a + b, d, x) == var m := Fold(plug, a, d, x); Fold(plug, b, m.0, m.1)
  {
    if b == [] {
      assert a + b == a;
    } else {
      var k := |b| - 1;
      assert (a + b)[..|a + b| - 1] == a + b[..k];
      FoldComposes(plug, a, b[..k], d, x);
    }
  }
}
