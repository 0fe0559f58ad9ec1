/**
 * The `Network` object: a vector of neurons, the map of directed links and the
 * type proportions, with the operations that build the links, read them, and
 * advance every neuron by one step. The random draws the source takes from its
 * generator are parameters here: `cellDraw(i)` is the uniform draw of neuron
 * i's constructor, `shuffle(j, n)` the index vector after the shuffle made for
 * receiver j, `degreeDraw(j)` the Poisson draw of `calculate_connections` for
 * receiver j, `weight(j, m)` the intensity drawn at attempt m for receiver j,
 * and `noise[i]` the normal draw of `total_current(i)`.
 */
module Networks {

  import opened Wrappers
  import opened Neurons
  import opened Graph
  import opened Dynamics
  import opened TypeMix
  import opened Population

  /** Distinct neuron objects whose values are the initial states for the labels `labels` and draws `cellDraw`. */
  ghost predicate BuiltAs(ns: seq<Neuron>, labels: seq<string>, cellDraw: nat -> real)
    reads ns
  {
    && |ns| == |labels|
    && (forall i, j :: 0 <= i < j < |ns| ==> ns[i] != ns[j])
    && (forall i :: 0 <= i < |ns| ==> ns[i].State() == InitialState(labels[i], cellDraw(i)))
  }

  /** One loop of the constructor: `count` neurons of type `kind`, appended after `ns`. */
  method AppendBlock(ns: seq<Neuron>, ghost labels: seq<string>, kind: string, count: nat, cellDraw: nat -> real)
    returns (ns': seq<Neuron>)
    requires BuiltAs(ns, labels, cellDraw)
    ensures BuiltAs(ns', labels + Repeat(kind, count), cellDraw)
    ensures ns'[..|ns|] == ns
    ensures forall k :: |ns| <= k < |ns'| ==> fresh(ns'[k])
  {
    ns' := ns;
    var i := 0;
    while i < count
      invariant 0 <= i <= count
      invariant |ns'| == |ns| + i && ns'[..|ns|] == ns
      invariant forall k :: |ns| <= k < |ns'| ==> fresh(ns'[k])
      invariant BuiltAs(ns', labels + Repeat(kind, i), cellDraw)
    {
      var n := new Neuron(kind, cellDraw(|ns'|));
      BuiltAsAppend(ns', labels + Repeat(kind, i), n, kind, cellDraw);
      assert Repeat(kind, i + 1) == Repeat(kind, i) + [kind];
      ns' := ns' + [n];
      i := i + 1;
    }
  }

  /** A new neuron of type `kind` built with the next draw extends the built sequence by one label. */
  lemma BuiltAsAppend(ns: seq<Neuron>, labels: seq<string>, n: Neuron, kind: string, cellDraw: nat -> real)
    requires BuiltAs(ns, labels, cellDraw)
    requires n !in ns && n.State() == InitialState(kind, cellDraw(|ns|))
    ensures BuiltAs(ns + [n], labels + [kind], cellDraw)
  {
  }

  /**
   * The five loops of the constructor: neuron i is built with the type label
   * the block layout gives index i, and with draw `cellDraw(i)`.
   */
  method Populate(number: nat, props: map<string, real>, cellDraw: nat -> real) returns (ns: seq<Neuron>)
    requires ProportionsOk(props)
    requires forall i :: 0.0 <= cellDraw(i) <= 1.0
    ensures |ns| == |InitialStates(number, props, cellDraw)|
    ensures forall i :: 0 <= i < |ns| ==> ns[i].State() == InitialStates(number, props, cellDraw)[i]
    ensures NeuronsOkOf(ns)
    ensures forall i :: 0 <= i < |ns| ==> fresh(ns[i])
  {
    var c := Counts(number, props);
    ns := AppendBlock([], [], "RS", c[0], cellDraw);
    assert forall i :: 0 <= i < |ns| ==> fresh(ns[i]);
    ns := AppendBlock(ns, Repeat("RS", c[0]), "IB", c[1], cellDraw);
    assert forall i :: 0 <= i < |ns| ==> fresh(ns[i]);
    ns := AppendBlock(ns, Repeat("RS", c[0]) + Repeat("IB", c[1]), "FS", c[2], cellDraw);
    assert forall i :: 0 <= i < |ns| ==> fresh(ns[i]);
    ns := AppendBlock(ns, Repeat("RS", c[0]) + Repeat("IB", c[1]) + Repeat("FS", c[2]), "LTS", c[3], cellDraw);
    assert forall i :: 0 <= i < |ns| ==> fresh(ns[i]);
    ns := AppendBlock(ns, Repeat("RS", c[0]) + Repeat("IB", c[1]) + Repeat("FS", c[2]) + Repeat("LTS", c[3]),
                      "CH", c[4], cellDraw);
    assert forall i :: 0 <= i < |ns| ==> fresh(ns[i]);
    LabelsFive(number, props);
    BuiltStates(ns, number, props, cellDraw);
  }

  /**
   * `Network(number, n_types, d, connectivity, model, intensity)`: `None` when
   * `extract_types` throws; otherwise the network the constructor builds.
   */
  method NewNetwork(number: nat, nTypes: string, connectivity: real, model: string, intensity: real,
                    cellDraw: nat -> real, shuffle: (nat, nat) -> seq<nat>, degreeDraw: nat -> nat,
                    weight: (nat, nat) -> real)
    returns (r: Option<Network>)
    requires forall i :: 0.0 <= cellDraw(i) <= 1.0
    requires forall j, n :: IsShuffleOf(shuffle(j, n), n)
    ensures r.None? <==> ExtractedTypes(nTypes, number).None?
    ensures r.Some? ==> fresh(r.value) && r.value.Valid()
    ensures r.Some? ==> forall i :: 0 <= i < |r.value.neurons| ==> fresh(r.value.neurons[i])
    ensures r.Some? ==> r.value.typesProportions == ExtractedTypes(nTypes, number).value
    ensures r.Some? ==> ProportionsOk(r.value.typesProportions)
                        && r.value.States() == InitialStates(number, r.value.typesProportions, cellDraw)
    ensures r.Some? ==> r.value.DegreesAsDrawn(connectivity, model, degreeDraw)
    ensures r.Some? ==> r.value.SendersAsDrawn(connectivity, model, shuffle, degreeDraw)
    ensures r.Some? ==> forall key :: key in r.value.links ==> DrawnLink(r.value.links, key, |r.value.neurons|, shuffle, weight)
    ensures r.Some? && (forall j, m :: 0.0 <= weight(j, m) <= 2.0 * intensity) ==>
              forall key :: key in r.value.links ==> 0.0 <= r.value.links[key] <= 2.0 * intensity
  {
    var props := ExtractTypes(nTypes, number);
    if props.None? {
      return None;
    }
    ExtractedTypesOk(nTypes, number);
    var net := new Network(number, props.value, connectivity, model, intensity, cellDraw, shuffle, degreeDraw, weight);
    if forall j, m :: 0.0 <= weight(j, m) <= 2.0 * intensity {
      DrawnWeightsInRange(net.links, |net.neurons|, shuffle, weight, intensity);
    }
    return Some(net);
  }

  /** Distinct neuron objects, with parameters in the ranges the neuron constructor draws. */
  ghost predicate NeuronsOkOf(ns: seq<Neuron>)
    reads ns
  {
    && (forall i, j :: 0 <= i < j < |ns| ==> ns[i] != ns[j])
    && (forall i :: 0 <= i < |ns| ==> WellFormedParams(ns[i].params))
  }

  /** Neurons built by the constructor's loops hold the initial states, with parameters in range. */
  lemma BuiltStates(ns: seq<Neuron>, number: nat, props: map<string, real>, cellDraw: nat -> real)
    requires ProportionsOk(props)
    requires forall i :: 0.0 <= cellDraw(i) <= 1.0
    requires BuiltAs(ns, Labels(number, props), cellDraw)
    ensures |ns| == |InitialStates(number, props, cellDraw)|
    ensures forall i :: 0 <= i < |ns| ==> ns[i].State() == InitialStates(number, props, cellDraw)[i]
    ensures forall i :: 0 <= i < |ns| ==> WellFormedParams(ns[i].params)
  {
    var labels := Labels(number, props);
    forall i | 0 <= i < |ns|
      ensures WellFormedParams(ns[i].params)
      ensures ns[i].State() == StatesFor(labels, cellDraw)[i]
    {
      InitialStateAtRest(labels[i], cellDraw(i));
      StatesForAt(labels, cellDraw, i);
    }
  }

  /** The neuron values right after construction. */
  function InitialStates(number: nat, props: map<string, real>, cellDraw: nat -> real): (r: seq<NeuronState>)
    requires ProportionsOk(props)
    ensures |r| == |Labels(number, props)|
  {
    StatesFor(Labels(number, props), cellDraw)
  }

  /** The initial values of neurons built with the labels `labels`, neuron i with draw `cellDraw(i)`. */
  function StatesFor(labels: seq<string>, cellDraw: nat -> real): (r: seq<NeuronState>)
    ensures |r| == |labels|
  {
    if labels == [] then [] else StatesFor(labels[..|labels| - 1], cellDraw) + [InitialState(labels[|labels| - 1], cellDraw(|labels| - 1))]
  }

  lemma {:induction false} StatesForAt(labels: seq<string>, cellDraw: nat -> real, i: nat)
    requires i < |labels|
    ensures StatesFor(labels, cellDraw)[i] == InitialState(labels[i], cellDraw(i))
  {
    if i < |labels| - 1 {
      StatesForAt(labels[..|labels| - 1], cellDraw, i);
    }
  }

  /** A link made by `random_connect`: its sender was tried at some attempt m and got that attempt's draw. */
  ghost predicate DrawnLink(links: Links, key: (nat, nat), size: nat, shuffle: (nat, nat) -> seq<nat>, weight: (nat, nat) -> real)
    requires key in links
  {
    exists m :: 0 <= m < |shuffle(key.0, size)| && shuffle(key.0, size)[m] == key.1 && links[key] == weight(key.0, m)
  }

  /**
   * `random_connect` draws each intensity with `uniform_double(0, 2 * i)`: when
   * every draw lies in [0, 2i], so does the intensity of every link it made.
   */
  lemma DrawnWeightsInRange(links: Links, size: nat, shuffle: (nat, nat) -> seq<nat>,
                            weight: (nat, nat) -> real, intensity: real)
    requires forall key :: key in links ==> DrawnLink(links, key, size, shuffle, weight)
    requires forall j, m :: 0.0 <= weight(j, m) <= 2.0 * intensity
    ensures forall key :: key in links ==> 0.0 <= links[key] <= 2.0 * intensity
  {
    forall key | key in links
      ensures 0.0 <= links[key] <= 2.0 * intensity
    {
      var m :| 0 <= m < |shuffle(key.0, size)| && shuffle(key.0, size)[m] == key.1 && links[key] == weight(key.0, m);
    }
  }

  class Network {
    var neurons: seq<Neuron>
    var links: Links
    var typesProportions: map<string, real>

    /** Links between distinct neurons of the network, neurons as constructed. */
    ghost predicate Valid()
      reads this, neurons
    {
      NeuronsOk() && WellFormed(links, |neurons|)
    }

    /** Distinct neuron objects, with parameters in the ranges the neuron constructor draws. */
    ghost predicate NeuronsOk()
      reads this`neurons, neurons
    {
      NeuronsOkOf(neurons)
    }

    /** The values of the neurons, by index. */
    function States(): (r: seq<NeuronState>)
      reads this`neurons, neurons
      ensures |r| == |neurons|
      ensures forall i :: 0 <= i < |neurons| ==> r[i] == neurons[i].State()
    {
      var ns := neurons;
      seq(|ns|, i requires 0 <= i < |ns| reads ns => ns[i].State())
    }

    /** Every receiver has the in-degree its link number asks for, capped at the other neurons. */
    ghost predicate DegreesAsDrawn(connectivity: real, model: string, degreeDraw: nat -> nat)
      reads this
    {
      forall j :: 0 <= j < |neurons| ==>
        InDegree(links, j, |neurons|) == ExpectedDegree(LinkNumber(model, connectivity, degreeDraw(j)), |neurons|)
    }

    /**
     * Every receiver j is linked from exactly the first senders of its
     * shuffle other than j, as many as its link number asks for.
     */
    ghost predicate SendersAsDrawn(connectivity: real, model: string, shuffle: (nat, nat) -> seq<nat>,
                                   degreeDraw: nat -> nat)
      reads this
    {
      forall j, s :: 0 <= j < |neurons| ==>
        ((j, s) in links <==> s in FirstOthers(shuffle(j, |neurons|), j, LinkNumber(model, connectivity, degreeDraw(j))))
    }

    /** The constructor, from proportions `extract_types` produced: the population, then `random_connect`. */
    constructor (number: nat, props: map<string, real>, connectivity: real, model: string, intensity: real,
                 cellDraw: nat -> real, shuffle: (nat, nat) -> seq<nat>, degreeDraw: nat -> nat,
                 weight: (nat, nat) -> real)
      requires ProportionsOk(props)
      requires forall i :: 0.0 <= cellDraw(i) <= 1.0
      requires forall j, n :: IsShuffleOf(shuffle(j, n), n)
      ensures Valid()
      ensures typesProportions == props
      ensures States() == InitialStates(number, props, cellDraw)
      ensures DegreesAsDrawn(connectivity, model, degreeDraw)
      ensures SendersAsDrawn(connectivity, model, shuffle, degreeDraw)
      ensures forall key :: key in links ==> DrawnLink(links, key, |neurons|, shuffle, weight)
      ensures forall i :: 0 <= i < |neurons| ==> fresh(neurons[i])
    {
      var ns := Populate(number, props, cellDraw);
      neurons := ns;
      links := map[];
      typesProportions := props;
      new;
      RandomConnect(connectivity, intensity, model, shuffle, degreeDraw, weight);
    }

    /** `add_link(n_r, n_s, i)`: succeeds exactly for a new link between two distinct neurons of the network. */
    method AddLink(nr: nat, ns: nat, w: real) returns (ok: bool)
      modifies this`links
      ensures ok <==> nr < |neurons| && ns < |neurons| && nr != ns && (nr, ns) !in old(links)
      ensures links == if ok then old(links)[(nr, ns) := w] else old(links)
    {
      if nr >= |neurons| || ns >= |neurons| || nr == ns {
        return false;
      }
      if (nr, ns) !in links {
        links := links[(nr, ns) := w];
        return true;
      }
      return false;
    }

    /**
     * `random_connect`: for each receiver j, try the senders in shuffled order
     * until `link_number` links have been made or every sender was tried.
     * From an empty map, every receiver ends with the in-degree it asked for,
     * or with every other neuron when it asked for more.
     */
    method RandomConnect(connectivity: real, intensity: real, model: string,
                         shuffle: (nat, nat) -> seq<nat>, degreeDraw: nat -> nat, weight: (nat, nat) -> real)
      requires WellFormed(links, |neurons|)
      requires forall j, n :: IsShuffleOf(shuffle(j, n), n)
      modifies this`links
      ensures WellFormed(links, |neurons|)
      ensures forall key :: key in old(links) ==> key in links && links[key] == old(links)[key]
      ensures forall key :: key in links && key !in old(links) ==> DrawnLink(links, key, |neurons|, shuffle, weight)
      ensures old(links) == map[] ==> DegreesAsDrawn(connectivity, model, degreeDraw)
      ensures old(links) == map[] ==> SendersAsDrawn(connectivity, model, shuffle, degreeDraw)
    {
      var size := |neurons|;
      ghost var fromEmpty := links == map[];
      var j := 0;
      while j < size
        invariant 0 <= j <= size
        invariant WellFormed(links, size)
        invariant forall key :: key in old(links) ==> key in links && links[key] == old(links)[key]
        invariant forall key :: key in links && key !in old(links) ==> DrawnLink(links, key, size, shuffle, weight)
        invariant fromEmpty ==> forall key :: key in links ==> key.0 < j
        invariant fromEmpty ==> forall r :: 0 <= r < j ==>
                    InDegree(links, r, size) == ExpectedDegree(LinkNumber(model, connectivity, degreeDraw(r)), size)
        invariant fromEmpty ==> forall r, s :: 0 <= r < j ==>
                    ((r, s) in links <==> s in FirstOthers(shuffle(r, size), r, LinkNumber(model, connectivity, degreeDraw(r))))
      {
        ghost var before := links;
        var linkNumber := LinkNumber(model, connectivity, degreeDraw(j));
        if fromEmpty {
          NoSendersYet(before, j);
        }
        var stop, m := ConnectReceiver(j, shuffle(j, size), linkNumber, shuffle, weight);
        ConnectedReceiver(before, links, j, size, shuffle(j, size), linkNumber, stop, m, fromEmpty);
        DrawnKept(old(links), before, links, j, size, m, shuffle, weight);
        if fromEmpty {
          SendersKept(before, links, j, size, shuffle, connectivity, model, degreeDraw);
        }
        forall r | 0 <= r < j
          ensures InDegree(links, r, size) == InDegree(before, r, size)
        {
          DegreeAgree(links, before, r, size);
        }
        j := j + 1;
      }
    }

    /**
     * The inner loop of `random_connect` for receiver j: returns the number of
     * links made and the number of senders tried. Every new link comes from an
     * attempt made; when j had no link before, its senders are exactly the
     * first `linkNumber` entries of the shuffle other than j.
     */
    method ConnectReceiver(j: nat, index: seq<nat>, linkNumber: int,
                           ghost shuffle: (nat, nat) -> seq<nat>, weight: (nat, nat) -> real)
      returns (stop: nat, m: nat)
      requires j < |neurons| && index == shuffle(j, |neurons|) && IsShuffleOf(index, |neurons|)
      requires WellFormed(links, |neurons|)
      modifies this`links
      ensures m <= |neurons| && !(m < |neurons| && stop < linkNumber) && (stop == 0 || stop <= linkNumber)
      ensures WellFormed(links, |neurons|)
      ensures forall key :: key in old(links) ==> key in links && links[key] == old(links)[key]
      ensures forall key :: key in links && key !in old(links) ==>
                key.0 == j && exists m' :: 0 <= m' < m && index[m'] == key.1 && links[key] == weight(j, m')
      ensures InDegree(links, j, |neurons|) == InDegree(old(links), j, |neurons|) + stop
      ensures forall m' :: 0 <= m' < m && index[m'] != j ==> (j, index[m']) in links
      ensures (forall s :: (j, s) !in old(links)) ==>
                forall s :: (j, s) in links <==> s in FirstOthers(index, j, linkNumber)
    {
      var size := |neurons|;
      ghost var start := links;
      ghost var noneYet := forall s :: (j, s) !in start;
      stop, m := 0, 0;
      while m < size && stop < linkNumber
        invariant size == |neurons|
        invariant ConnectedSoFar(start, links, size, j, index, linkNumber, m, stop, weight)
        invariant noneYet ==> stop == OthersTried(index, 0, m, j)
      {
        stop := Attempt(j, index, linkNumber, m, stop, weight, start, noneYet);
        m := m + 1;
      }
      ConnectedDone(start, links, size, j, index, linkNumber, m, stop, weight);
      if noneYet {
        SendersDone(start, links, size, j, index, linkNumber, m, stop, weight);
      }
    }

    /** One turn of the inner loop: try the sender at attempt m with the intensity drawn for it. */
    method Attempt(j: nat, index: seq<nat>, k: int, m: nat, stop: nat, weight: (nat, nat) -> real,
                   ghost start: Links, ghost noneYet: bool)
      returns (stop': nat)
      requires j < |neurons| && m < |neurons| && stop < k && IsShuffleOf(index, |neurons|)
      requires ConnectedSoFar(start, links, |neurons|, j, index, k, m, stop, weight)
      requires noneYet ==> (forall s :: (j, s) !in start) && stop == OthersTried(index, 0, m, j)
      modifies this`links
      ensures ConnectedSoFar(start, links, |neurons|, j, index, k, m + 1, stop', weight)
      ensures noneYet ==> stop' == OthersTried(index, 0, m + 1, j)
    {
      ghost var prev := links;
      var ok := AddLink(j, index[m], weight(j, m));
      stop' := if ok then stop + 1 else stop;
      AttemptStep(start, prev, links, |neurons|, j, index, k, m, stop, weight, noneYet, ok, stop');
    }

    /** Attempt m keeps both loop invariants, whether `add_link` succeeds or not. */
    static lemma AttemptStep(start: Links, prev: Links, links: Links, size: nat, j: nat, index: seq<nat>, k: int,
                             m: nat, stop: nat, weight: (nat, nat) -> real, noneYet: bool, ok: bool, stop': nat)
      requires j < size && m < size && stop < k && IsShuffleOf(index, size)
      requires ConnectedSoFar(start, prev, size, j, index, k, m, stop, weight)
      requires noneYet ==> (forall s :: (j, s) !in start) && stop == OthersTried(index, 0, m, j)
      requires ok <==> j != index[m] && (j, index[m]) !in prev
      requires links == if ok then prev[(j, index[m]) := weight(j, m)] else prev
      requires stop' == if ok then stop + 1 else stop
      ensures ConnectedSoFar(start, links, size, j, index, k, m + 1, stop', weight)
      ensures noneYet ==> stop' == OthersTried(index, 0, m + 1, j)
    {
      ConnectStep(start, prev, links, size, j, index, k, m, stop, weight, ok);
      if noneYet {
        FreshAttempt(start, prev, size, j, index, k, m, stop, weight);
        OthersTriedSnoc(index, 0, m, j);
      }
    }

    /**
     * What the inner loop keeps for receiver j after m attempts: the links
     * stay well formed, the links before the loop are kept, each new link goes
     * into j from an attempt made with that attempt's intensity, `stop` counts
     * them, and every other sender tried is linked.
     */
    static ghost predicate ConnectedSoFar(start: Links, links: Links, size: nat, j: nat, index: seq<nat>, k: int,
                                          m: nat, stop: nat, weight: (nat, nat) -> real)
    {
      && m <= size && |index| == size
      && (stop == 0 || stop <= k)
      && WellFormed(links, size)
      && (forall key :: key in start ==> key in links && links[key] == start[key])
      && (forall key :: key in links && key !in start ==>
            key.0 == j && exists m' :: 0 <= m' < m && index[m'] == key.1 && links[key] == weight(j, m'))
      && InDegree(links, j, size) == InDegree(start, j, size) + stop
      && (forall m' :: 0 <= m' < m && index[m'] != j ==> (j, index[m']) in links)
    }

    /** What the inner loop keeps, spelled out clause by clause. */
    static lemma ConnectedDone(start: Links, links: Links, size: nat, j: nat, index: seq<nat>, k: int,
                               m: nat, stop: nat, weight: (nat, nat) -> real)
      requires ConnectedSoFar(start, links, size, j, index, k, m, stop, weight)
      ensures m <= size && (stop == 0 || stop <= k)
      ensures WellFormed(links, size)
      ensures forall key :: key in start ==> key in links && links[key] == start[key]
      ensures forall key :: key in links && key !in start ==>
                key.0 == j && exists m' :: 0 <= m' < m && index[m'] == key.1 && links[key] == weight(j, m')
      ensures InDegree(links, j, size) == InDegree(start, j, size) + stop
      ensures forall m' :: 0 <= m' < m && index[m'] != j ==> (j, index[m']) in links
    {
    }

    /** Attempt m keeps what the inner loop promises, whether `add_link` succeeds or not. */
    static lemma ConnectStep(start: Links, prev: Links, links: Links, size: nat, j: nat, index: seq<nat>, k: int,
                             m: nat, stop: nat, weight: (nat, nat) -> real, ok: bool)
      requires j < size && m < size && stop < k && IsShuffleOf(index, size)
      requires ConnectedSoFar(start, prev, size, j, index, k, m, stop, weight)
      requires ok <==> j != index[m] && (j, index[m]) !in prev
      requires links == if ok then prev[(j, index[m]) := weight(j, m)] else prev
      ensures ConnectedSoFar(start, links, size, j, index, k, m + 1, if ok then stop + 1 else stop, weight)
    {
      if ok {
        StepKept(start, prev, links, size, j, index[m], weight(j, m));
        DegreeAdd(prev, j, index[m], weight(j, m), size);
      }
      StepAttempts(start, prev, links, j, index, m, weight, ok);
      StepTried(prev, links, j, index, m, ok);
    }

    /** A new link between distinct neurons keeps the map well formed and the earlier links as they were. */
    static lemma StepKept(start: Links, prev: Links, links: Links, size: nat, j: nat, s0: nat, w: real)
      requires j != s0 && j < size && s0 < size && (j, s0) !in prev
      requires WellFormed(prev, size)
      requires forall key :: key in start ==> key in prev && prev[key] == start[key]
      requires links == prev[(j, s0) := w]
      ensures WellFormed(links, size)
      ensures forall key :: key in start ==> key in links && links[key] == start[key]
    {
    }

    /** A link made at attempt m comes from the sender tried there, with the intensity drawn there. */
    static lemma StepAttempts(start: Links, prev: Links, links: Links, j: nat, index: seq<nat>, m: nat,
                              weight: (nat, nat) -> real, ok: bool)
      requires m < |index|
      requires forall key :: key in start ==> key in prev
      requires forall key :: key in prev && key !in start ==>
                 key.0 == j && exists m' :: 0 <= m' < m && index[m'] == key.1 && prev[key] == weight(j, m')
      requires ok ==> (j, index[m]) !in prev
      requires links == if ok then prev[(j, index[m]) := weight(j, m)] else prev
      ensures forall key :: key in links && key !in start ==>
                key.0 == j && exists m' :: 0 <= m' < m + 1 && index[m'] == key.1 && links[key] == weight(j, m')
    {
      forall key | key in links && key !in start
        ensures key.0 == j && exists m' :: 0 <= m' < m + 1 && index[m'] == key.1 && links[key] == weight(j, m')
      {
        if ok && key == (j, index[m]) {
          assert index[m] == key.1 && links[key] == weight(j, m);
        } else {
          var m' :| 0 <= m' < m && index[m'] == key.1 && prev[key] == weight(j, m');
          assert links[key] == prev[key];
        }
      }
    }

    /** After attempt m, every sender tried so far other than j is linked. */
    static lemma StepTried(prev: Links, links: Links, j: nat, index: seq<nat>, m: nat, ok: bool)
      requires m < |index|
      requires forall m' :: 0 <= m' < m && index[m'] != j ==> (j, index[m']) in prev
      requires ok <==> j != index[m] && (j, index[m]) !in prev
      requires forall key :: key in prev ==> key in links
      requires ok ==> (j, index[m]) in links
      ensures forall m' :: 0 <= m' < m + 1 && index[m'] != j ==> (j, index[m']) in links
    {
    }

    /** The sender at attempt m is not linked yet: j started without links and the entries of a shuffle are distinct. */
    static lemma FreshAttempt(start: Links, links: Links, size: nat, j: nat, index: seq<nat>, k: int,
                              m: nat, stop: nat, weight: (nat, nat) -> real)
      requires m < size && IsShuffleOf(index, size)
      requires forall s :: (j, s) !in start
      requires ConnectedSoFar(start, links, size, j, index, k, m, stop, weight)
      ensures (j, index[m]) !in links
    {
    }

    /**
     * When j started without links, the loop links exactly the senders other
     * than j among the attempts made, and these are all of `FirstOthers`.
     */
    static lemma SendersDone(start: Links, links: Links, size: nat, j: nat, index: seq<nat>, k: int,
                             m: nat, stop: nat, weight: (nat, nat) -> real)
      requires ConnectedSoFar(start, links, size, j, index, k, m, stop, weight)
      requires forall s :: (j, s) !in start
      requires stop == OthersTried(index, 0, m, j)
      requires !(m < size && stop < k)
      ensures forall s :: (j, s) in links <==> s in FirstOthers(index, j, k)
    {
      FirstOthersTried(index, 0, m, j, k);
      forall s: nat
        ensures (j, s) in links <==> TriedOther(index, 0, m, j, s)
      {
        if (j, s) in links {
          var m' :| 0 <= m' < m && index[m'] == s && links[(j, s)] == weight(j, m');
        }
      }
    }

    /** `find_neighbours(n)`: the senders into `n` by ascending index, with their intensities. */
    method FindNeighbours(n: nat) returns (nb: seq<(nat, real)>)
      ensures nb == Incoming(links, n, |neurons|)
    {
      nb := [];
      var s := 0;
      while s < |neurons|
        invariant 0 <= s <= |neurons|
        invariant nb == Incoming(links, n, s)
      {
        if (n, s) in links {
          nb := nb + [(s, links[(n, s)])];
        }
        s := s + 1;
      }
    }

    /** `valence(n)`: excitatory intensities in, minus inhibitory ones. */
    method Valence(n: nat) returns (v: real)
      ensures v == Dynamics.Valence(States(), Incoming(links, n, |neurons|))
    {
      var nb := FindNeighbours(n);
      v := 0.0;
      var k := 0;
      while k < |nb|
        invariant 0 <= k <= |nb|
        invariant v == Dynamics.Valence(States(), nb[..k])
      {
        assert nb[..k + 1][..k] == nb[..k];
        if neurons[nb[k].0].params.excit {
          v := v + nb[k].1;
        } else {
          v := v - nb[k].1;
        }
        k := k + 1;
      }
      assert nb[..k] == nb;
    }

    /** `is_type(type)`: some neuron has this type label. */
    method IsType(t: string) returns (b: bool)
      ensures b <==> exists i :: 0 <= i < |neurons| && States()[i].kind == t
    {
      var i := 0;
      while i < |neurons|
        invariant 0 <= i <= |neurons|
        invariant forall j :: 0 <= j < i ==> States()[j].kind != t
      {
        if neurons[i].kind == t {
          assert States()[i].kind == t;
          return true;
        }
        i := i + 1;
      }
      return false;
    }

    /** `find_first_neuron(type)`: the lowest index with this type label, or 0 when there is none. */
    method FindFirstNeuron(t: string) returns (idx: nat)
      ensures (exists i :: 0 <= i < |neurons| && States()[i].kind == t) ==>
                idx < |neurons| && States()[idx].kind == t && forall j :: 0 <= j < idx ==> States()[j].kind != t
      ensures (forall i :: 0 <= i < |neurons| ==> States()[i].kind != t) ==> idx == 0
    {
      var i := 0;
      while i < |neurons|
        invariant 0 <= i <= |neurons|
        invariant forall j :: 0 <= j < i ==> States()[j].kind != t
      {
        if neurons[i].kind == t {
          return i;
        }
        i := i + 1;
      }
      return 0;
    }

    /** `total_current(n)` with the noise draw `z`. */
    method TotalCurrent(n: nat, z: real) returns (current: real)
      requires n < |neurons|
      ensures current == Dynamics.TotalCurrent(States(), links, n, z)
    {
      var nb := FindNeighbours(n);
      IncomingSenders(links, n, |neurons|);
      var synaptic := SynapticSum(nb);
      if neurons[n].params.excit {
        current := 5.0 * z + synaptic;
      } else {
        current := 2.0 * z + synaptic;
      }
    }

    /** The loop of `total_current` over the neighbours of the receiver. */
    method SynapticSum(nb: seq<(nat, real)>) returns (sum: real)
      requires SendersIn(nb, |neurons|)
      ensures sum == Synaptic(States(), nb)
    {
      ghost var st := States();
      sum := 0.0;
      var k := 0;
      while k < |nb|
        invariant 0 <= k <= |nb|
        invariant sum == Synaptic(st, nb[..k])
      {
        assert Synaptic(st, nb[..k + 1]) == Synaptic(st, nb[..k]) + Contribution(st[nb[k].0], nb[k].1) by {
          assert nb[..k + 1][..k] == nb[..k];
        }
        var sender := neurons[nb[k].0];
        assert sender.Firing() == IsFiring(st[nb[k].0]) && sender.params.excit == st[nb[k].0].params.excit;
        if sender.Firing() {
          if sender.params.excit {
            sum := sum + nb[k].1 * 0.5;
          } else {
            sum := sum - nb[k].1;
          }
        }
        k := k + 1;
      }
      assert nb[..k] == nb;
    }

    /**
     * `update`: pass one integrates every quiet neuron in index order with its
     * current, and lists the firing ones; pass two resets the listed ones.
     */
    method Update(noise: seq<real>) returns (fired: seq<nat>)
      requires Valid() && |noise| == |neurons|
      modifies neurons
      ensures Valid()
      ensures neurons == old(neurons) && links == old(links)
      ensures fired == Firers(old(States()), |neurons|)
      ensures States() == AfterStep(old(States()), links, noise)
    {
      ghost var start := States();
      fired := IntegrateQuiet(noise);
      ghost var mid := States();
      PassOneKeeps(start, links, noise, |neurons|);
      ResetFirers(fired);
      ResetAllKeeps(mid, fired);
      assert forall i :: 0 <= i < |neurons| ==> neurons[i].params == start[i].params by {
        assert forall i :: 0 <= i < |neurons| ==> States()[i].params == mid[i].params == start[i].params;
      }
    }

    /** The first loop of `update`: quiet neurons are integrated in index order, firing ones are listed. */
    method IntegrateQuiet(noise: seq<real>) returns (fired: seq<nat>)
      requires |noise| == |neurons|
      requires forall i, j :: 0 <= i < j < |neurons| ==> neurons[i] != neurons[j]
      modifies neurons
      ensures fired == Firers(old(States()), |neurons|)
      ensures States() == PassOne(old(States()), links, noise, |neurons|)
    {
      ghost var start := States();
      fired := [];
      var i: nat := 0;
      var size := |neurons|;
      while i < size
        invariant i <= size == |neurons|
        invariant States() == PassOne(start, links, noise, i)
        invariant fired == Firers(start, i)
      {
        fired := Visit(i, noise, start, fired);
        i := i + 1;
      }
    }

    /**
     * One turn of the first loop, from the states pass one has reached: a
     * firing neuron is added to the list; a quiet one gets its current from
     * the present states and goes through `equation`.
     */
    method Visit(i: nat, noise: seq<real>, ghost start: seq<NeuronState>, fired: seq<nat>) returns (fired': seq<nat>)
      requires i < |neurons| && |noise| == |neurons| && |start| == |neurons|
      requires forall k, l :: 0 <= k < l < |neurons| ==> neurons[k] != neurons[l]
      requires States() == PassOne(start, links, noise, i)
      requires fired == Firers(start, i)
      modifies neurons[i]
      ensures fired' == Firers(start, i + 1)
      ensures States() == PassOne(start, links, noise, i + 1)
    {
      ghost var prev := States();
      PassOneKeeps(start, links, noise, i);
      assert prev[i] == start[i];
      fired' := fired;
      if neurons[i].Firing() {
        fired' := fired + [i];
      } else {
        var c := TotalCurrent(i, noise[i]);
        neurons[i].SetCurrent(c);
        neurons[i].Equation();
        assert forall k :: 0 <= k < |neurons| && k != i ==> neurons[k].State() == prev[k];
        assert States() == prev[i := EquationState(prev[i].(curr := c))];
      }
    }

    /** The second loop of `update`: the listed neurons are reset, in list order. */
    method ResetFirers(fired: seq<nat>)
      requires forall j :: 0 <= j < |fired| ==> fired[j] < |neurons|
      requires forall i, j :: 0 <= i < j < |neurons| ==> neurons[i] != neurons[j]
      modifies neurons
      ensures States() == ResetAll(old(States()), fired)
    {
      ghost var mid := States();
      var k := 0;
      while k < |fired|
        invariant 0 <= k <= |fired|
        invariant States() == ResetAll(mid, fired[..k])
      {
        ghost var prev := States();
        assert fired[..k + 1][..k] == fired[..k];
        neurons[fired[k]].Reset();
        assert forall l :: 0 <= l < |neurons| && l != fired[k] ==> neurons[l].State() == prev[l];
        k := k + 1;
      }
      assert fired[..k] == fired;
    }

    /** `set_neuron_potential(n, pot)`: only neuron n's potential changes. */
    method SetNeuronPotential(n: nat, v: real)
      requires Valid() && n < |neurons|
      modifies neurons[n]
      ensures Valid()
      ensures neurons == old(neurons) && links == old(links)
      ensures States() == old(States())[n := old(States())[n].(pot := v)]
    {
      ghost var prev := States();
      neurons[n].SetPotential(v);
      assert forall k :: 0 <= k < |neurons| && k != n ==> neurons[k].State() == prev[k];
    }

    /** Before receiver j's turn, when the map started empty, nothing links into j. */
    static lemma NoSendersYet(before: Links, j: nat)
      requires forall key :: key in before ==> key.0 < j
      ensures forall s :: (j, s) !in before
    {
    }

    /** The links made for receiver j and the ones kept from before all come from a draw. */
    static lemma DrawnKept(start: Links, before: Links, links: Links, j: nat, size: nat, m: nat,
                          shuffle: (nat, nat) -> seq<nat>, weight: (nat, nat) -> real)
      requires |shuffle(j, size)| == size && m <= size
      requires forall key :: key in before ==> key in links && links[key] == before[key]
      requires forall key :: key in links && key !in before ==>
                 key.0 == j && exists m' :: 0 <= m' < m && shuffle(j, size)[m'] == key.1 && links[key] == weight(j, m')
      requires forall key :: key in before && key !in start ==> DrawnLink(before, key, size, shuffle, weight)
      ensures forall key :: key in links && key !in start ==> DrawnLink(links, key, size, shuffle, weight)
    {
      forall key | key in links && key !in start
        ensures DrawnLink(links, key, size, shuffle, weight)
      {
        if key in before {
          assert DrawnLink(before, key, size, shuffle, weight);
        }
      }
    }

    /**
     * After receiver j's turn from an empty map, the senders of every receiver
     * up to j are the ones its shuffle gives.
     */
    static lemma SendersKept(before: Links, links: Links, j: nat, size: nat, shuffle: (nat, nat) -> seq<nat>,
                             connectivity: real, model: string, degreeDraw: nat -> nat)
      requires forall key :: key in before ==> key in links
      requires forall key :: key in links && key !in before ==> key.0 == j
      requires forall r, s :: 0 <= r < j ==>
                 ((r, s) in before <==> s in FirstOthers(shuffle(r, size), r, LinkNumber(model, connectivity, degreeDraw(r))))
      requires forall s :: (j, s) in links <==> s in FirstOthers(shuffle(j, size), j, LinkNumber(model, connectivity, degreeDraw(j)))
      ensures forall r, s :: 0 <= r < j + 1 ==>
                ((r, s) in links <==> s in FirstOthers(shuffle(r, size), r, LinkNumber(model, connectivity, degreeDraw(r))))
    {
      forall r, s | 0 <= r < j
        ensures (r, s) in links <==> (r, s) in before
      {
      }
    }

    /**
     * What the inner loop of `random_connect` leaves for receiver j: starting
     * from no link into j, either the link number was reached or every other
     * neuron became a sender.
     */
    static lemma ConnectedReceiver(before: Links, links: Links, j: nat, size: nat, index: seq<nat>,
                                   linkNumber: int, stop: nat, m: nat, fromEmpty: bool)
      requires j < size && IsShuffleOf(index, size) && m <= size
      requires WellFormed(links, size)
      requires forall key :: key in links && key !in before ==> key.0 == j
      requires fromEmpty ==> forall key :: key in before ==> key.0 < j
      requires InDegree(links, j, size) == InDegree(before, j, size) + stop
      requires forall m' :: 0 <= m' < m && index[m'] != j ==> (j, index[m']) in links
      requires !(m < size && stop < linkNumber)
      requires stop <= linkNumber || stop == 0
      ensures fromEmpty ==> forall key :: key in links ==> key.0 < j + 1
      ensures fromEmpty ==> InDegree(links, j, size) == ExpectedDegree(linkNumber, size)
    {
      if fromEmpty {
        DegreeNone(before, j, size);
        DegreeAtMost(links, j, size);
        if stop < linkNumber {
          forall s | 0 <= s < size && s != j
            ensures (j, s) in links
          {
            assert s in index;
            var m' :| 0 <= m' < |index| && index[m'] == s;
          }
          DegreeFull(links, j, size);
        }
      }
    }
  }
}
