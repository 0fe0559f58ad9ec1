/**
 * A single Izhikevich cell: the parameter record drawn at construction, the
 * type label, and the state (potential, recovery, current) that one step of
 * `equation` advances or resets.
 */
module Neurons {

  import opened Constants

  /** `Neuron_parameters`: cellular properties a, b, c, d and the excitatory flag. */
  datatype Params = Params(a: real, b: real, c: real, d: real, excit: bool)

  /** The value of one neuron: its parameters, type label (`kind`) and state `pot_`, `rec_`, `curr_`. */
  datatype NeuronState = NeuronState(params: Params, kind: string, pot: real, rec: real, curr: real)

  /** `firing()`: the potential is strictly above the threshold. */
  predicate IsFiring(s: NeuronState)
  {
    s.pot > Threshold
  }

  /** The labels built as excitatory cells; FS and LTS are the inhibitory ones. */
  predicate IsExcitatory(kind: string)
  {
    kind == "RS" || kind == "IB" || kind == "CH"
  }

  /**
   * The parameter record `Neuron(bool excit)` builds from one uniform draw `r`.
   * For a draw in [0, 1] the results lie in the ranges below.
   */
  function DrawnParams(excit: bool, r: real): (p: Params)
    ensures p.excit == excit
    ensures 0.0 <= r <= 1.0 ==> WellFormedParams(p)
    ensures excit ==> p.a == 0.02 && p.b == 0.2
    ensures !excit ==> p.c == -65.0 && p.d == 2.0
    ensures r == 0.0 ==> p == (if excit then Params(0.02, 0.2, -65.0, 8.0, true) else Params(0.1, 0.2, -65.0, 2.0, false))
  {
    assert 0.0 <= r <= 1.0 ==> 0.0 <= r * r <= 1.0 by {
      if 0.0 <= r <= 1.0 { DrawnSquareBounds(r); }
    }
    if excit then
      Params(0.02, 0.2, -65.0 * (1.0 - 3.0 * r * r / 13.0), 8.0 * (1.0 - 3.0 * r * r / 4.0), excit)
    else
      Params(0.1 * (1.0 - 0.8 * r), 0.2 * (1.0 + 0.25 * r), -65.0, 2.0, excit)
  }

  /** The ranges every constructed parameter record lies in. */
  predicate WellFormedParams(p: Params)
  {
    if p.excit then
      p.a == 0.02 && p.b == 0.2 && -65.0 <= p.c <= -50.0 && 2.0 <= p.d <= 8.0
    else
      0.02 <= p.a <= 0.1 && 0.2 <= p.b <= 0.25 && p.c == -65.0 && p.d == 2.0
  }

  /** The state right after construction: pot = -65, rec = b * pot with the drawn b, curr = 0. */
  function InitialState(kind: string, r: real): (s: NeuronState)
  {
    var p := DrawnParams(IsExcitatory(kind), r);
    NeuronState(p, kind, -65.0, p.b * -65.0, 0.0)
  }

  /** The firing branch of `equation`, which is also what the network's reset does. */
  function ResetState(s: NeuronState): NeuronState
  {
    s.(pot := s.params.c, rec := s.rec + s.params.d)
  }

  /** The right-hand side of the potential equation. */
  function Drive(v: real, u: real, i: real): real
  {
    0.04 * v * v + 5.0 * v + 140.0 - u + i
  }

  /** The quiet branch of `equation`: one increment of pot, then rec using the new pot. */
  function IntegrateState(s: NeuronState): NeuronState
  {
    var v := s.pot + DeltaT * Drive(s.pot, s.rec, s.curr);
    s.(pot := v, rec := s.rec + DeltaT * s.params.a * (s.params.b * v - s.rec))
  }

  /** `equation`: reset when firing, integrate otherwise. */
  function EquationState(s: NeuronState): NeuronState
  {
    if IsFiring(s) then ResetState(s) else IntegrateState(s)
  }

  lemma DrawnSquareBounds(r: real)
    requires 0.0 <= r <= 1.0
    ensures 0.0 <= r * r <= 1.0
  {
    assert r * r <= r * 1.0;
  }

  /** A freshly constructed neuron is at rest, not firing, with parameters in range. */
  lemma InitialStateAtRest(kind: string, r: real)
    requires 0.0 <= r <= 1.0
    ensures InitialState(kind, r).pot == -65.0
    ensures InitialState(kind, r).rec == InitialState(kind, r).params.b * InitialState(kind, r).pot
    ensures InitialState(kind, r).curr == 0.0
    ensures InitialState(kind, r).params.excit <==> IsExcitatory(kind)
    ensures WellFormedParams(InitialState(kind, r).params)
    ensures !IsFiring(InitialState(kind, r))
  {
    DrawnSquareBounds(r);
  }

  /** `equation` never changes the parameters, the type label or the current. */
  lemma EquationKeepsParams(s: NeuronState)
    ensures EquationState(s).params == s.params
    ensures EquationState(s).kind == s.kind
    ensures EquationState(s).curr == s.curr
  {
  }

  /** The firing branch sets pot to exactly c and adds exactly d to rec. */
  lemma ResetMovesToC(s: NeuronState)
    requires IsFiring(s)
    ensures EquationState(s).pot == s.params.c
    ensures EquationState(s).rec == s.rec + s.params.d
  {
  }

  /** After a reset, a neuron whose parameters were constructed is quiet (c <= -50 < 30). */
  lemma ResetQuiets(s: NeuronState)
    requires WellFormedParams(s.params)
    ensures !IsFiring(ResetState(s))
  {
  }

  /**
   * On a quiet neuron, the potential moves by half the drive and the recovery
   * moves towards b times the NEW potential.
   */
  lemma IntegrateIsHalfStep(s: NeuronState)
    requires !IsFiring(s)
    ensures EquationState(s).pot == s.pot + 0.5 * (0.04 * s.pot * s.pot + 5.0 * s.pot + 140.0 - s.rec + s.curr)
    ensures EquationState(s).rec == s.rec + 0.5 * s.params.a * (s.params.b * EquationState(s).pot - s.rec)
  {
  }

  /** A point where both right-hand sides vanish is left unchanged by a quiet step. */
  lemma IntegrateFixedPoint(s: NeuronState)
    requires Drive(s.pot, s.rec, s.curr) == 0.0
    requires s.params.b * s.pot == s.rec
    ensures IntegrateState(s) == s
  {
  }

  /** Raising the current by x raises the next potential by exactly DeltaT * x. */
  lemma IntegrateLinearInCurrent(s: NeuronState, x: real)
    ensures IntegrateState(s.(curr := s.curr + x)).pot == IntegrateState(s).pot + DeltaT * x
  {
  }

  /** `Neuron`: parameters, type label and the three state variables, updated in place. */
  class Neuron {
    var params: Params
    var kind: string
    var pot: real
    var rec: real
    var curr: real

    /** The neuron's value. */
    function State(): NeuronState
      reads this
    {
      NeuronState(params, kind, pot, rec, curr)
    }

    /** `Neuron(type, ...)`: the excitatory flag follows the type label, then `Neuron(bool)`'s draws. */
    constructor (kind: string, r: real)
      ensures State() == InitialState(kind, r)
    {
      var excit := IsExcitatory(kind);
      var p := DrawnParams(excit, r);
      this.kind := kind;
      params := p;
      curr := 0.0;
      pot := -65.0;
      rec := p.b * -65.0;
    }

    /** `firing()`. */
    predicate Firing()
      reads this
    {
      IsFiring(State())
    }

    /** `set_params`. */
    method SetParams(p: Params)
      modifies this
      ensures params == p
      ensures State() == old(State()).(params := p)
    {
      params := p;
    }

    /** `set_potential`. */
    method SetPotential(v: real)
      modifies this
      ensures pot == v
      ensures State() == old(State()).(pot := v)
    {
      pot := v;
    }

    /** `set_recovery`. */
    method SetRecovery(u: real)
      modifies this
      ensures rec == u
      ensures State() == old(State()).(rec := u)
    {
      rec := u;
    }

    /** `set_current`. */
    method SetCurrent(i: real)
      modifies this
      ensures curr == i
      ensures State() == old(State()).(curr := i)
    {
      curr := i;
    }

    /** Reset after a spike: the firing branch of `equation`. */
    method Reset()
      modifies this
      ensures State() == ResetState(old(State()))
    {
      pot := params.c;
      rec := rec + params.d;
    }

    /** `equation`: reset when firing; otherwise update pot, then rec from the updated pot. */
    method Equation()
      modifies this
      ensures State() == EquationState(old(State()))
    {
      if Firing() {
        pot := params.c;
        rec := rec + params.d;
      } else {
        pot := pot + DeltaT * Drive(pot, rec, curr);
        rec := rec + DeltaT * params.a * (params.b * pot - rec);
      }
    }
  }
}
