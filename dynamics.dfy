/**
 * One step of the network, as a function of the neuron values at the start of
 * the step, the links and the noise draws: pass one visits the neurons in
 * index order, leaving the firing ones alone and integrating the others with
 * the current computed from the states as they are at that moment; pass two
 * resets the neurons found firing.
 */
module Dynamics {

  import opened Neurons
  import opened Graph

  /** The scale of the external noise: 5 for an excitatory receiver, 2 for an inhibitory one. */
  function NoiseScale(s: NeuronState): real
  {
    if s.params.excit then 5.0 else 2.0
  }

  /** Every neighbour's sender is a neuron of the network. */
  predicate SendersIn(nb: seq<(nat, real)>, size: nat)
  {
    forall k :: 0 <= k < |nb| ==> nb[k].0 < size
  }

  /** What one neighbour adds to the current of its receiver. */
  function Contribution(sender: NeuronState, w: real): real
  {
    if !IsFiring(sender) then 0.0
    else if sender.params.excit then w * 0.5
    else -w
  }

  /** The synaptic part of `total_current`, accumulated over the neighbours in order. */
  function Synaptic(states: seq<NeuronState>, nb: seq<(nat, real)>): real
    requires SendersIn(nb, |states|)
  {
    if nb == [] then 0.0
    else Synaptic(states, nb[..|nb| - 1]) + Contribution(states[nb[|nb| - 1].0], nb[|nb| - 1].1)
  }

  /** `total_current(n)` when the noise draw is `z`. */
  function TotalCurrent(states: seq<NeuronState>, links: Links, n: nat, z: real): real
    requires n < |states|
  {
    NoiseScale(states[n]) * z + Synaptic(states, Incoming(links, n, |states|))
  }

  /** Sum of the intensities from senders of one polarity; only the firing ones when `onlyFiring`. */
  function WeightFrom(states: seq<NeuronState>, nb: seq<(nat, real)>, excit: bool, onlyFiring: bool): real
    requires SendersIn(nb, |states|)
  {
    if nb == [] then 0.0
    else
      var sender := states[nb[|nb| - 1].0];
      var counted := sender.params.excit == excit && (IsFiring(sender) || !onlyFiring);
      WeightFrom(states, nb[..|nb| - 1], excit, onlyFiring) + (if counted then nb[|nb| - 1].1 else 0.0)
  }

  /** `valence`: +w for each excitatory sender, -w for each inhibitory one. */
  function Valence(states: seq<NeuronState>, nb: seq<(nat, real)>): real
    requires SendersIn(nb, |states|)
  {
    if nb == [] then 0.0
    else
      var w := nb[|nb| - 1].1;
      Valence(states, nb[..|nb| - 1]) + (if states[nb[|nb| - 1].0].params.excit then w else -w)
  }

  /**
   * The states after pass one has visited neurons 0 .. k-1. Neuron i is tested
   * for firing as it is when visited; a quiet one gets its current from the
   * states at that moment, so lower-indexed neurons are already integrated.
   */
  function PassOne(start: seq<NeuronState>, links: Links, noise: seq<real>, k: nat): (r: seq<NeuronState>)
    requires k <= |start| && |noise| == |start|
    ensures |r| == |start|
    decreases k
  {
    if k == 0 then start
    else
      var s := PassOne(start, links, noise, k - 1);
      var i := k - 1;
      if IsFiring(s[i]) then s
      else s[i := EquationState(s[i].(curr := TotalCurrent(s, links, i, noise[i])))]
  }

  /**
   * Pass one leaves the neurons it has not visited yet and the firing ones as
   * they were, and never changes parameters or type labels.
   */
  lemma {:induction false} PassOneKeeps(start: seq<NeuronState>, links: Links, noise: seq<real>, k: nat)
    requires k <= |start| && |noise| == |start|
    ensures forall i :: k <= i < |start| ==> PassOne(start, links, noise, k)[i] == start[i]
    ensures forall i :: 0 <= i < |start| && IsFiring(start[i]) ==> PassOne(start, links, noise, k)[i] == start[i]
    ensures forall i :: 0 <= i < |start| ==>
              PassOne(start, links, noise, k)[i].params == start[i].params
              && PassOne(start, links, noise, k)[i].kind == start[i].kind
  {
    if k > 0 {
      PassOneKeeps(start, links, noise, k - 1);
    }
  }

  /** The indices found firing among 0 .. k-1, in the order visited. */
  function Firers(start: seq<NeuronState>, k: nat): (r: seq<nat>)
    requires k <= |start|
    ensures forall j :: 0 <= j < |r| ==> r[j] < k
    decreases k
  {
    if k == 0 then []
    else Firers(start, k - 1) + (if IsFiring(start[k - 1]) then [k - 1] else [])
  }

  /** The list holds exactly the firing indices among 0 .. k-1, each once, in ascending order. */
  lemma {:induction false} FirersListed(start: seq<NeuronState>, k: nat)
    requires k <= |start|
    ensures forall j :: 0 <= j < |Firers(start, k)| ==> IsFiring(start[Firers(start, k)[j]])
    ensures forall i :: 0 <= i < k && IsFiring(start[i]) ==> i in Firers(start, k)
    ensures forall j, l :: 0 <= j < l < |Firers(start, k)| ==> Firers(start, k)[j] < Firers(start, k)[l]
  {
    if k > 0 {
      FirersListed(start, k - 1);
      var prev := Firers(start, k - 1);
      var r := Firers(start, k);
      assert r == prev + (if IsFiring(start[k - 1]) then [k - 1] else []);
      assert forall j :: 0 <= j < |prev| ==> r[j] == prev[j];
      assert forall i :: 0 <= i < k - 1 && IsFiring(start[i]) ==> i in prev;
      assert IsFiring(start[k - 1]) ==> r[|prev|] == k - 1;
    }
  }

  /** Pass two: reset the listed neurons, in list order. */
  function ResetAll(s: seq<NeuronState>, idx: seq<nat>): (r: seq<NeuronState>)
    requires forall j :: 0 <= j < |idx| ==> idx[j] < |s|
    ensures |r| == |s|
  {
    if idx == [] then s
    else
      var before := ResetAll(s, idx[..|idx| - 1]);
      var n := idx[|idx| - 1];
      before[n := ResetState(before[n])]
  }

  /** Resetting never changes parameters or type labels. */
  lemma {:induction false} ResetAllKeeps(s: seq<NeuronState>, idx: seq<nat>)
    requires forall j :: 0 <= j < |idx| ==> idx[j] < |s|
    ensures forall i :: 0 <= i < |s| ==> ResetAll(s, idx)[i].params == s[i].params && ResetAll(s, idx)[i].kind == s[i].kind
  {
    if idx != [] {
      ResetAllKeeps(s, idx[..|idx| - 1]);
    }
  }

  /** The neuron values at the end of `update`. */
  function AfterStep(start: seq<NeuronState>, links: Links, noise: seq<real>): seq<NeuronState>
    requires |noise| == |start|
  {
    ResetAll(PassOne(start, links, noise, |start|), Firers(start, |start|))
  }

  /** The neighbours of a receiver are neurons of the network. */
  lemma IncomingSenders(links: Links, n: nat, size: nat)
    ensures SendersIn(Incoming(links, n, size), size)
  {
  }

  /** The current splits into noise, half the firing excitatory weight, minus the firing inhibitory weight. */
  lemma {:induction false} SynapticSplit(states: seq<NeuronState>, nb: seq<(nat, real)>)
    requires SendersIn(nb, |states|)
    ensures Synaptic(states, nb) == 0.5 * WeightFrom(states, nb, true, true) - WeightFrom(states, nb, false, true)
  {
    if nb != [] {
      SynapticSplit(states, nb[..|nb| - 1]);
    }
  }

  /** `total_current` = noise + 0.5 * (firing excitatory weight) - (firing inhibitory weight). */
  lemma TotalCurrentSplit(states: seq<NeuronState>, links: Links, n: nat, z: real)
    requires n < |states|
    ensures TotalCurrent(states, links, n, z)
         == (if states[n].params.excit then 5.0 else 2.0) * z
            + 0.5 * WeightFrom(states, Incoming(links, n, |states|), true, true)
            - WeightFrom(states, Incoming(links, n, |states|), false, true)
  {
    SynapticSplit(states, Incoming(links, n, |states|));
  }

  /** Only the firing status and polarity of the senders matter to the current. */
  lemma {:induction false} SynapticOnlyFiring(states: seq<NeuronState>, states': seq<NeuronState>, nb: seq<(nat, real)>)
    requires |states| == |states'| && SendersIn(nb, |states|)
    requires forall i :: 0 <= i < |states| ==>
               IsFiring(states[i]) == IsFiring(states'[i]) && states[i].params.excit == states'[i].params.excit
    ensures Synaptic(states, nb) == Synaptic(states', nb)
  {
    if nb != [] {
      SynapticOnlyFiring(states, states', nb[..|nb| - 1]);
    }
  }

  /** With no firing sender, the current is the noise alone. */
  lemma {:induction false} SynapticQuiet(states: seq<NeuronState>, nb: seq<(nat, real)>)
    requires SendersIn(nb, |states|)
    requires forall k :: 0 <= k < |nb| ==> !IsFiring(states[nb[k].0])
    ensures Synaptic(states, nb) == 0.0
  {
    if nb != [] {
      SynapticQuiet(states, nb[..|nb| - 1]);
    }
  }

  /** Valence is the excitatory weight minus the inhibitory weight. */
  lemma {:induction false} ValenceSplit(states: seq<NeuronState>, nb: seq<(nat, real)>)
    requires SendersIn(nb, |states|)
    ensures Valence(states, nb) == WeightFrom(states, nb, true, false) - WeightFrom(states, nb, false, false)
  {
    if nb != [] {
      ValenceSplit(states, nb[..|nb| - 1]);
    }
  }

  /**
   * A quiet neuron i, once visited, holds the integration of its start value
   * with the current computed from the states after pass one visited 0 .. i-1.
   */
  lemma {:induction false} PassOneSettled(start: seq<NeuronState>, links: Links, noise: seq<real>, k: nat, i: nat)
    requires k <= |start| && |noise| == |start|
    requires i < k && !IsFiring(start[i])
    ensures PassOne(start, links, noise, k)[i]
         == IntegrateState(start[i].(curr := TotalCurrent(PassOne(start, links, noise, i), links, i, noise[i])))
  {
    PassOneKeeps(start, links, noise, i);
    if k > i + 1 {
      PassOneSettled(start, links, noise, k - 1, i);
    }
  }

  /** Resetting a list of distinct indices resets exactly those neurons. */
  lemma {:induction false} ResetAllAt(s: seq<NeuronState>, idx: seq<nat>, i: nat)
    requires forall j :: 0 <= j < |idx| ==> idx[j] < |s|
    requires forall j, l :: 0 <= j < l < |idx| ==> idx[j] < idx[l]
    requires i < |s|
    ensures ResetAll(s, idx)[i] == if i in idx then ResetState(s[i]) else s[i]
  {
    if idx != [] {
      ResetAllAt(s, idx[..|idx| - 1], i);
      assert i in idx <==> i in idx[..|idx| - 1] || i == idx[|idx| - 1];
      if i == idx[|idx| - 1] {
        assert i !in idx[..|idx| - 1];
      }
    }
  }

  /** `update` returns exactly the neurons firing at the start of the step, in ascending order. */
  lemma StepReturnsFirers(start: seq<NeuronState>, i: nat)
    requires i < |start|
    ensures i in Firers(start, |start|) <==> IsFiring(start[i])
  {
    FirersListed(start, |start|);
  }

  /** A neuron firing at the start of the step ends it reset: pot = c, rec + d, current unchanged. */
  lemma StepResetsFirer(start: seq<NeuronState>, links: Links, noise: seq<real>, i: nat)
    requires |noise| == |start| && i < |start| && IsFiring(start[i])
    ensures |AfterStep(start, links, noise)| == |start|
    ensures AfterStep(start, links, noise)[i] == ResetState(start[i])
    ensures AfterStep(start, links, noise)[i].pot == start[i].params.c
    ensures AfterStep(start, links, noise)[i].rec == start[i].rec + start[i].params.d
    ensures AfterStep(start, links, noise)[i].curr == start[i].curr
  {
    PassOneKeeps(start, links, noise, |start|);
    FirersListed(start, |start|);
    ResetAllAt(PassOne(start, links, noise, |start|), Firers(start, |start|), i);
  }

  /** A neuron quiet at the start of the step gets its current and is integrated, and is not reset. */
  lemma StepIntegratesQuiet(start: seq<NeuronState>, links: Links, noise: seq<real>, i: nat)
    requires |noise| == |start| && i < |start| && !IsFiring(start[i])
    ensures |AfterStep(start, links, noise)| == |start|
    ensures AfterStep(start, links, noise)[i]
         == IntegrateState(start[i].(curr := TotalCurrent(PassOne(start, links, noise, i), links, i, noise[i])))
  {
    FirersListed(start, |start|);
    ResetAllAt(PassOne(start, links, noise, |start|), Firers(start, |start|), i);
    PassOneSettled(start, links, noise, |start|, i);
  }

  /** In a network of constructed neurons, no neuron reset by the step is still firing. */
  lemma StepQuietsFirers(start: seq<NeuronState>, links: Links, noise: seq<real>, i: nat)
    requires |noise| == |start| && i < |start| && IsFiring(start[i])
    requires WellFormedParams(start[i].params)
    ensures |AfterStep(start, links, noise)| == |start|
    ensures !IsFiring(AfterStep(start, links, noise)[i])
  {
    StepResetsFirer(start, links, noise, i);
  }

  /**
   * Neuron 0 is quiet at the start (pot 29) and is integrated above the
   * threshold before neuron 1's current is computed: neuron 1 then receives
   * half the intensity of the link from 0, although 0 is not among the firers.
   */
  lemma LowerIndexSeenIntegrated(p: Params, start: seq<NeuronState>, links: Links, noise: seq<real>)
    requires p == Params(0.02, 0.2, -65.0, 8.0, true)
    requires start == [NeuronState(p, "RS", 29.0, 0.0, 0.0), NeuronState(p, "RS", -65.0, -13.0, 0.0)]
    requires links == map[(1, 0) := 4.0] && noise == [0.0, 0.0]
    ensures Firers(start, 2) == []
    ensures IsFiring(PassOne(start, links, noise, 1)[0])
    ensures TotalCurrent(PassOne(start, links, noise, 1), links, 1, 0.0) == 2.0
    ensures TotalCurrent(start, links, 1, 0.0) == 0.0
  {
    assert Firers(start, 1) == [];
    assert IntegrateState(start[0]).pot == 188.32;
    FirstVisit(start, links, noise);
    var s1 := PassOne(start, links, noise, 1);
    CurrentFromZero(s1, links);
    CurrentFromZero(start, links);
  }

  /** With one link 0 -> 1 and a quiet neuron 0 without current or noise, visiting 0 integrates it. */
  lemma FirstVisit(start: seq<NeuronState>, links: Links, noise: seq<real>)
    requires links == map[(1, 0) := 4.0] && |start| == 2 && noise == [0.0, 0.0]
    requires !IsFiring(start[0]) && start[0].curr == 0.0
    ensures PassOne(start, links, noise, 1) == start[0 := IntegrateState(start[0])]
  {
    assert TotalCurrent(start, links, 0, 0.0) == 0.0 by {
      IncomingNone(links, 0, 2);
    }
    assert start[0].(curr := 0.0) == start[0];
    assert PassOne(start, links, noise, 0) == start;
  }

  /** With one link 0 -> 1 of intensity 4 and no noise, neuron 1's current is what neuron 0 sends. */
  lemma CurrentFromZero(states: seq<NeuronState>, links: Links)
    requires links == map[(1, 0) := 4.0] && |states| == 2
    ensures TotalCurrent(states, links, 1, 0.0) == Contribution(states[0], 4.0)
  {
    var nb := Incoming(links, 1, 2);
    assert nb == [(0, 4.0)] by {
      assert Incoming(links, 1, 0) == [];
      assert Incoming(links, 1, 1) == [(0, 4.0)];
    }
    assert nb[..0] == [];
    assert Synaptic(states, nb) == Synaptic(states, nb[..0]) + Contribution(states[0], 4.0);
  }
}
