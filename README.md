# Spiking network engine — a Dafny model

This project models the simulation engine of NeuronNetwork_project: a
population of Izhikevich neurons joined by a sparse, directed, weighted graph
and advanced one time step at a time. It covers five parts:

- **Neuron** (`neuron.dfy`, module `Neurons`). The parameter record
  `(a, b, c, d, excit)` drawn at construction and the state (potential,
  recovery, current). `equation` either resets a firing neuron or integrates
  a quiet one. `Neuron` is a class whose setters and `equation` update its
  fields in place. `NeuronState` is the neuron's value, and the functions on
  it specify those methods.
- **Type mix** (`type_mix.dfy`, module `TypeMix`). `extract_types` strips
  whitespace, cuts the text at commas and then at the first `:`, reads the
  value with `stod`, and accepts only known labels other than RS. It clamps
  each value to 1, cuts it so the running total stays at most 1, and gives RS
  the remainder. `ExtractTypes` is the loop. `Absorb` and `AbsorbAll` are its
  specification.
- **Population** (`population.dfy`, module `Population`, with
  `AppendBlock`/`Populate` in `network.dfy`). There are ⌊number·p⌋ neurons
  of each type, in blocks ordered RS, IB, FS, LTS, CH.
- **Graph** (`graph.dfy`, module `Graph`, with the `Network` methods). The
  map from (receiver, sender) to intensity. It is built with `add_link` and
  `random_connect` and read with `find_neighbours`, `valence`, `is_type` and
  `find_first_neuron`.
- **Step** (`dynamics.dfy`, module `Dynamics`, with `Network.Update`). Pass
  one lists the firing neurons and integrates the others with their current.
  Pass two resets the listed neurons. `PassOne`, `Firers`, `ResetAll` and
  `AfterStep` specify the step on values. The `Network` methods are proved
  against them.

The random draws are parameters of the operations:

- `cellDraw(i)` is neuron i's uniform draw in [0, 1].
- `shuffle(j, n)` is the index vector after the shuffle for receiver j. It is
  required to be a rearrangement of 0 .. n-1.
- `degreeDraw(j)` is the Poisson draw of `calculate_connections`.
- `weight(j, m)` is the intensity drawn at attempt m for receiver j.
- `noise[i]` is the normal draw of `total_current(i)`.

Numbers are Dafny `real`s.

Points where the code does something easy to misread, and what the model
does there:

- **Integration.** The comment on `update` (src/Network.h:148-151) says a
  time step updates the potential twice and the recovery once. `equation`
  (src/Neuron.cpp:35-37) does one step of 0.5 on the potential, then
  `rec += 0.5·a·(b·pot − rec)` with the updated potential. The model follows
  `equation` (`Neurons.IntegrateIsHalfStep`).
- **Parameter draws.** The network constructor builds every neuron with
  `Neuron(label, d)` (src/Network.cpp:22-25). That constructor is not part of
  this model. The header says `d` sets the noise applied to each neuron's
  parameters (src/Network.h:26-30). The model draws the parameters the way
  `Neuron(bool)` does (src/Neuron.cpp:6-25): one uniform r and fixed
  formulas. It leaves out the noise that `d` adds.
- **Type mix after the total reaches 1.** The loop guard is
  `total < size` (src/Network.cpp:74), so with two or more neurons the loop
  reads every piece.
  - A later accepted piece is cut to 0, and that 0 overwrites its label. On
    "FS:1,FS:1" with two neurons every proportion ends at 0
    (`TypeMixExamples.RepeatedLabelZeroed`), and the network has no neuron.
    RS is 1 minus the running total, and an overwritten value stays counted
    in that total, so the five proportions can sum to less than 1.
  - A malformed later piece still makes `stod` throw
    (`TypeMixExamples.GuardStopsOnlyForOneNeuron`).
- **Order within pass one.** Pass one (src/Network.cpp:203-211) computes each
  current from the states the loop has reached so far. Lower-indexed quiet
  neurons are already integrated when a higher index's current is computed.
  A neuron pushed over the threshold by that integration contributes to its
  higher-indexed receivers in the same pass, but it is not reset
  (`Dynamics.LowerIndexSeenIntegrated`).

## Model

| member | source | states |
|---|---|---|
| Neurons.DrawnParams | src/Neuron.cpp:8-25 | The flag is stored as given. An excitatory cell has a = 0.02 and b = 0.2; an inhibitory one has c = −65 and d = 2. For a draw r in [0, 1] every parameter is in its range: c ∈ [−65, −50], d ∈ [2, 8], a ∈ [0.02, 0.1], b ∈ [0.2, 0.25]. The draw r = 0 gives (a, b, c, d) = (0.02, 0.2, −65, 8) for an excitatory cell and (0.1, 0.2, −65, 2) for an inhibitory one. |
| Neurons.InitialStateAtRest | src/Neuron.cpp:6-25 | A new neuron has pot = −65, rec = b·pot with the drawn b, and curr = 0. It is excitatory exactly for RS, IB and CH, its parameters are in range, and it is not firing. |
| Neurons.EquationKeepsParams | src/Neuron.cpp:29-39 | `equation` never changes the parameters, the type label or the current. |
| Neurons.ResetMovesToC | src/Neuron.cpp:31-34 | On a firing neuron, `equation` sets pot to exactly c and adds exactly d to rec. |
| Neurons.ResetQuiets | src/Neuron.cpp:31-34 | After the firing branch, a neuron with constructed parameters is no longer firing, because c ≤ −50 < 30. |
| Neurons.IntegrateIsHalfStep | src/Neuron.cpp:35-38 | On a quiet neuron, pot moves by 0.5·(0.04·pot² + 5·pot + 140 − rec + curr). Then rec moves by 0.5·a·(b·pot′ − rec), using the new pot′. |
| Neurons.IntegrateFixedPoint | src/Neuron.cpp:36-37 | A state where both right-hand sides vanish is left unchanged by a quiet step. |
| Neurons.IntegrateLinearInCurrent | src/Neuron.cpp:36 | Raising the current by x raises the next potential by exactly 0.5·x. |
| Neurons.Neuron.constructor | src/Neuron.cpp:6-27 | The new object's value is the initial state for its label and draw. |
| Neurons.Neuron.SetParams | src/Neuron.h:27 | Only the parameters change, and they become the given record, so `get_params` returns it. |
| Neurons.Neuron.SetPotential | src/Neuron.h:29 | Only the potential changes, and it becomes the given value. |
| Neurons.Neuron.SetRecovery | src/Neuron.h:31 | Only the recovery changes, and it becomes the given value. |
| Neurons.Neuron.SetCurrent | src/Neuron.h:33 | Only the current changes, and it becomes the given value. |
| Neurons.Neuron.Reset | src/Neuron.cpp:31-34 | The new value is the firing branch of `equation` applied to the old one. |
| Neurons.Neuron.Equation | src/Neuron.cpp:29-39 | The new value is `EquationState` of the old one: a reset when pot > 30, otherwise a half step on pot and then on rec. |
| Graph.Incoming | src/Network.cpp:139-151 | The neighbours of n are exactly the (sender, intensity) pairs of the links into n, with both directions stated, in strictly ascending sender order. |
| Graph.InDegreeIsNeighbourCount | src/Network.cpp:139-151 | The in-degree equals the number of neighbours `find_neighbours` reports. |
| Graph.IncomingAgree | src/Network.cpp:139-151 | Two maps with the same links into n give n the same neighbour list. |
| Graph.DegreeAgree | src/Network.cpp:124-136 | Two maps with the same links into n give n the same in-degree. |
| Graph.DegreeAdd | src/Network.cpp:133-135 | Adding one new link into n raises its in-degree by exactly one. |
| Graph.DegreeAtMost | src/Network.cpp:106 | With no self-link, a receiver has at most size − 1 senders. |
| Graph.DegreeFull | src/Network.cpp:133-135 | A receiver linked from every other neuron has exactly size − 1 senders. |
| Graph.DegreeNone | src/Network.cpp:114-137 | A receiver with no links has in-degree 0. |
| Graph.IncomingNone | src/Network.cpp:139-151 | A receiver with no links has no neighbours. |
| Graph.LinkNumber | src/Network.cpp:90-102 | "constant" and every unrecognised model ask for ⌊connectivity⌋ links. "poisson" and "over-dispersed" ask for their draw. |
| Graph.FirstOthers | src/Network.cpp:130-135 | The senders `random_connect` gives receiver j: entries of the shuffle other than j, at most max(k, 0) of them. Which entries they are is tied to the loop by `Network.ConnectReceiver`. |
| Graph.FirstOthersTried | src/Network.cpp:131-135 | When the attempts stop at the end of the shuffle or once k senders other than j were met, the senders other than j among them are exactly the members of `FirstOthers`. |
| Dynamics.PassOneKeeps | src/Network.cpp:203-211 | Pass one leaves unvisited neurons and start-of-step firers as they were, and never changes parameters or labels. |
| Dynamics.FirersListed | src/Network.cpp:202-211 | The list holds exactly the start-of-step firing indices among those visited, both directions, in strictly ascending order. |
| Dynamics.ResetAllKeeps | src/Network.cpp:212-214 | Pass two never changes parameters or labels. |
| Dynamics.ResetAllAt | src/Network.cpp:212-214 | Resetting a list of distinct indices resets exactly the listed neurons and leaves the others as they were. |
| Dynamics.SynapticSplit | src/Network.cpp:188-195 | The synaptic current is 0.5 × (firing excitatory weight in) minus (firing inhibitory weight in). |
| Dynamics.TotalCurrentSplit | src/Network.cpp:182-198 | `total_current` is 5·z (excitatory receiver) or 2·z (inhibitory), plus 0.5·w per firing excitatory sender, minus w per firing inhibitory sender. |
| Dynamics.SynapticOnlyFiring | src/Network.cpp:188-195 | Only the senders' firing status and polarity affect the current. |
| Dynamics.SynapticQuiet | src/Network.cpp:188-195 | With no firing sender, the synaptic part is 0 and the current is the noise alone. |
| Dynamics.ValenceSplit | src/Network.cpp:154-162 | Valence is the excitatory weight in minus the inhibitory weight in. |
| Dynamics.PassOneSettled | src/Network.cpp:203-211 | Once visited, a quiet neuron holds the integration of its start value with the current computed from the states pass one had reached. |
| Dynamics.StepReturnsFirers | src/Network.cpp:200-216 | An index is in the returned list exactly when its neuron was firing at the start of the step. |
| Dynamics.StepResetsFirer | src/Network.cpp:200-216 | A start-of-step firer ends the step with pot = c, rec + d and its current unchanged, whatever its neighbours do. |
| Dynamics.StepIntegratesQuiet | src/Network.cpp:203-211 | A quiet neuron gets `total_current` from the states at its visit, is integrated, and is not reset. |
| Dynamics.StepQuietsFirers | src/Network.cpp:212-214 | In a constructed network, a neuron reset by the step is not firing at its end. |
| Dynamics.LowerIndexSeenIntegrated | src/Network.cpp:203-211 | Concrete case: neuron 0 is quiet at the start and is integrated over the threshold before neuron 1's current is computed. Neuron 1 then receives 2.0 from it, where the start states would give 0, and the firing list is empty. |
| TypeMix.StripSpace | src/Network.cpp:69 | The result has no whitespace and is no longer than the input. |
| TypeMix.StripSpaceAppend | src/Network.cpp:69 | Removing whitespace distributes over concatenation. |
| TypeMix.StripSpaceNone | src/Network.cpp:69 | Text without whitespace is kept as it is. |
| TypeMix.StripSpaceChar | src/Network.cpp:69 | One character is removed when it is whitespace and kept otherwise; with `StripSpaceAppend` this fixes the result for every text. |
| TypeMix.IndexOf | src/Network.cpp:75 | `find(':')` returns the first position of ':' or the length when there is none. |
| TypeMix.IndexOfSplit | src/Network.cpp:75 | In a + ":" + b with no ':' in a, `find` returns the length of a. |
| TypeMix.Tokens | src/Network.cpp:71-74 | No piece contains a comma, and the empty text gives no pieces and is the only text that does. |
| TypeMix.TokensJoin | src/Network.cpp:71-74 | Joining the pieces with commas gives back a text that does not end in a comma. |
| TypeMix.TokensOfJoin | src/Network.cpp:71-74 | Cutting a comma-join of comma-free pieces, the last one non-empty, gives back the pieces. |
| TypeMix.TokensTrailingComma | src/Network.cpp:71-74 | A text that ends in a comma has no final empty piece: joining the pieces and adding one comma gives the text back. |
| TypeMix.LabelAndValue | src/Network.cpp:75-77 | A piece "label:text" has that label and hands that text to `stod`. |
| TypeMix.ParseReal | src/Network.cpp:77 | `stod` succeeds exactly when the text starts with an optional sign and then a digit, or a point and a digit. |
| TypeMix.ParseDigit | src/Network.cpp:77 | `stod` on one digit gives its value. |
| TypeMix.ParseTenths | src/Network.cpp:77 | `stod` on "i.f" gives i + f/10. |
| TypeMix.AbsorbFails | src/Network.cpp:77 | A piece on which `stod` throws stops the extraction. |
| TypeMix.AbsorbAccepted | src/Network.cpp:79-83 | An accepted piece sets its label to the clamped value, cut to 1 − total when it would overshoot, and adds that to the total. |
| TypeMix.AbsorbIgnored | src/Network.cpp:79 | A piece that is not accepted changes neither the map nor the total. |
| TypeMix.AbsorbToken | src/Network.cpp:75-84 | One piece gives None exactly when `stod` finds no number. A piece labelled RS, unknown, or ≤ 0 changes nothing. An accepted one sets its label to min(v, 1), cut so that the total stays ≤ 1. The map stays well formed. |
| TypeMix.CutKeepsMix | src/Network.cpp:80-83 | Setting a known non-RS label to a value in [0, 1] that keeps the total ≤ 1 keeps the map well formed. |
| TypeMix.AbsorbAllKeepsMix | src/Network.cpp:74-85 | However many pieces are read, the running total stays in [0, 1] and the map keeps the five labels. |
| TypeMix.AbsorbAllStep | src/Network.cpp:74 | While total < number, the loop reads the next piece, then stops on a throw or goes on from the result. |
| TypeMix.AbsorbAllGuardInert | src/Network.cpp:74 | With a count of 2 or more, the guard `total < number` never stops the loop early, so the count does not change the result. |
| TypeMix.ExtractedNoCount | src/Network.cpp:61-86 | With a count ≤ 0 no piece is read, and RS gets 1. |
| TypeMix.InitialMixOk | src/Network.h:164-170 | The initial map holds the five labels at 0, with total 0. |
| TypeMix.MixRemainder | src/Network.cpp:86 | Giving RS the remainder 1 − total of a well-formed map yields proportions in [0, 1] that sum to at most 1. |
| TypeMix.ExtractedEmpty | src/Network.cpp:63-66 | An empty text gives RS = FS = 0.5 and IB = LTS = CH = 0. |
| TypeMix.ExtractedTypesOk | src/Network.cpp:59-88 | Whenever extraction succeeds, the map has exactly the five labels, each in [0, 1], summing to at most 1. For a non-empty text, RS is 1 minus the running total of the accepted values, and that total is in [0, 1]. |
| TypeMix.ExtractTypes | src/Network.cpp:59-88 | The method's result is the specified extraction, or None when `stod` throws. |
| TypeMix.ReadPieces | src/Network.cpp:74-85 | The loop over the pieces computes `AbsorbAll`. |
| TypeMix.ReadPiece | src/Network.cpp:75-84 | The loop body computes `Absorb` on one piece. |
| TypeMixExamples.PiecesOf | src/Network.cpp:69-74 | A whitespace-free comma-join of comma-free pieces, the last one non-empty, is cut back into those pieces. |
| TypeMixExamples.GuardStopsOnlyForOneNeuron | src/Network.cpp:74 | On "FS:1,x", one neuron gives FS = 1, RS = 0, because the malformed "x" is never read. Two neurons read it, and `stod` throws. |
| TypeMixExamples.WholeFirstPiece | src/Network.cpp:75-84 | "FS:1" on the initial map sets FS to 1 and fills the total. |
| TypeMixExamples.MalformedSecondPiece | src/Network.cpp:77 | A piece with no ':' and no number makes `stod` throw. |
| TypeMixExamples.AbsorbFitting | src/Network.cpp:75-83 | An accepted value that fits under the remaining total is stored as read. |
| TypeMixExamples.AbsorbOverflowing | src/Network.cpp:79-83 | An accepted value that would pass a total of 1 is cut to exactly 1 − total, and the total becomes 1. |
| TypeMixExamples.PieceAfterFullTotal | src/Network.cpp:79-83 | Once the total is 1, a further "FS:1" is still accepted, cut to 0, and overwrites FS. |
| TypeMixExamples.RepeatedLabelZeroed | src/Network.cpp:74-86 | With two neurons, "FS:1,FS:1" leaves every proportion at 0, because the guard does not stop the loop once the total reaches 1. |
| TypeMixExamples.ThreeTypesFillTheMix | src/Network.cpp:59-88 | "FS:0.2,LTS:0.1,CH:0.7" gives FS 0.2, LTS 0.1, CH 0.7, and RS and IB 0. |
| Population.BlockSize | src/Network.cpp:12-16 | A block's size is ⌊number·p⌋: at most number·p and more than number·p − 1. |
| Population.KindsDistinct | src/Network.h:164-170 | The five type labels are distinct. |
| Population.FloorSumBound | src/Network.cpp:12-16 | Five counts, each at most number·p_t with the p_t summing to ≤ 1, add up to at most number. |
| Population.PopulationFits | src/Network.cpp:12-53 | When the proportions sum to at most 1, the network has at most `number` neurons. |
| Population.LayoutAt | src/Network.cpp:19-53 | Every index inside block k carries the label of block k. |
| Population.LayoutBefore | src/Network.cpp:19-53 | The indices before block k carry only the labels of earlier blocks. |
| Population.LayoutCount | src/Network.cpp:19-53 | With distinct labels, the layout holds exactly counts[k] neurons labelled kinds[k], and none of any other label. |
| Population.LabelsFive | src/Network.cpp:19-53 | The labels are the RS, IB, FS, LTS and CH blocks, in this order, each of size ⌊number·p_t⌋. |
| Population.LabelsCount | src/Network.cpp:12-53 | The network has exactly ⌊number·p_t⌋ neurons of each type t, and none of any other label. |
| Population.FirstOfBlock | src/Network.cpp:19-53 | The first neuron with a block's label sits at the start of that block. |
| Population.LabelsHaveKind | src/Network.cpp:12-53 | A label occurs exactly when it is a known type whose block is not empty. |
| Population.LabelsFirst | src/Network.cpp:19-53 | The first neuron of type t is at the start of t's block, when that block is not empty. |
| Networks.BuiltAsAppend | src/Network.cpp:23-24 | Appending a new neuron built with the next draw extends the built sequence by its label. |
| Networks.AppendBlock | src/Network.cpp:22-25 | One constructor loop appends `count` newly allocated, distinct neurons of the given type after the existing ones, each at its initial state. |
| Networks.Populate | src/Network.cpp:12-53 | The five loops yield, by index, the initial states of the block layout, as distinct, newly allocated objects with parameters in range, as the by-value neuron vector owns its neurons. |
| Networks.BuiltStates | src/Network.cpp:19-53 | Neurons built by the loops hold the initial states, and their parameters are in range. |
| Networks.StatesForAt | src/Network.cpp:19-53 | Neuron i starts at the initial state for label i and draw i. |
| Networks.DrawnWeightsInRange | src/Network.cpp:134 | When every draw of `uniform_double(0, 2i)` is in [0, 2i], every link's intensity is in [0, 2i]. |
| Networks.NewNetwork | src/Network.cpp:6-57 | Construction fails exactly when `extract_types` throws. Otherwise it stores the extracted proportions and lays out the initial states in newly allocated neurons, so the caller may go on to update them. Every receiver gets its drawn in-degree, from exactly the first senders of its shuffle other than itself. Each link has the weight drawn at its attempt, so it lies in [0, 2i] whenever the draws do. |
| Networks.Network.constructor | src/Network.cpp:6-57 | The population is laid out by blocks, in newly allocated neurons. The links are well formed and each has the weight drawn at its attempt. Every receiver j has min(max(k_j, 0), size − 1) senders: exactly the first k_j entries of its shuffle other than j. |
| Networks.Network.AddLink | src/Network.cpp:104-112 | Returns true exactly for two distinct in-range indices whose pair is new, and then inserts that one entry. Otherwise the map is unchanged and an existing weight is never overwritten. |
| Networks.Network.RandomConnect | src/Network.cpp:114-137 | Links stay between distinct in-range neurons, and old links are kept. Each new link was tried in its receiver's shuffle and got that attempt's weight. From an empty map, receiver j ends with exactly min(max(k_j, 0), size − 1) links, and (j, s) is a link exactly when s is among the first k_j entries of j's shuffle other than j. |
| Networks.Network.ConnectReceiver | src/Network.cpp:131-135 | The inner loop adds links only into j. Each new link is from a sender tried at an attempt m' < m and has the weight drawn at m'. Every other sender tried is linked. The loop raises j's in-degree by `stop` and ends with `stop` = k_j or every other sender tried. When j had no link before, its senders are exactly the first k_j shuffle entries other than j. |
| Networks.Network.ConnectedReceiver | src/Network.cpp:131-135 | After the inner loop from no links into j, j's in-degree is min(max(k_j, 0), size − 1). |
| Networks.Network.FindNeighbours | src/Network.cpp:139-151 | Returns exactly `Incoming`: the links into n, in ascending sender order. |
| Networks.Network.Valence | src/Network.cpp:154-162 | Returns +w per excitatory sender and −w per inhibitory one. |
| Networks.Network.IsType | src/Network.cpp:165-171 | True exactly when some neuron has the label. |
| Networks.Network.FindFirstNeuron | src/Network.cpp:173-179 | Returns the smallest index with the label, or 0 when there is none. |
| Networks.Network.TotalCurrent | src/Network.cpp:182-198 | Returns the specified current for noise z. |
| Networks.Network.SynapticSum | src/Network.cpp:188-195 | The loop over the neighbours accumulates the synaptic current. |
| Networks.Network.Update | src/Network.cpp:200-216 | Returns the start-of-step firers and leaves the states at `AfterStep`. Links, the neuron vector and validity are kept. |
| Networks.Network.IntegrateQuiet | src/Network.cpp:203-211 | Pass one: lists the firers and leaves the states at `PassOne` over all neurons. |
| Networks.Network.Visit | src/Network.cpp:204-210 | One turn of pass one extends the list and the state by exactly one index. |
| Networks.Network.ResetFirers | src/Network.cpp:212-214 | Pass two resets the listed neurons, in list order. |
| Networks.Network.SetNeuronPotential | src/Network.h:75 | Only neuron n's potential changes. Every other neuron, the links and validity are unchanged. |

## Left out

- Random draws: the generator and its distributions are not modelled (uniform, normal, Poisson, exponential, and the shuffle of src/Network.cpp:126). Every draw is a parameter, constrained only where the code relies on it: cell draws lie in [0, 1] and shuffles are rearrangements.
- Distributional claims about the "poisson" and "over-dispersed" models (means, variances) cannot be stated without probability. Only the deterministic branches of `calculate_connections` are modelled.
- Floating point: the model uses exact reals and makes no claim about rounding in the integration or in `floor`.
- `std::stod` is modelled for decimal numerals: sign, digits, point, exponent. Forms such as "inf", "nan" and hexadecimal, and out-of-range values (which throw `std::out_of_range`), are not modelled.
- `size_t` and `int` widths: indices and counts are unbounded naturals, so the `(int)floor` casts cannot overflow in the model.
- The `delta` argument of the constructor: it goes to `Neuron(label, d)`, which is not part of this model. The header says it sets the noise on each neuron's parameters (src/Network.h:26-30). The model draws parameters as `Neuron(bool)` does and does not model that noise.
- The two-argument neuron constructor `Neuron("RS", d)` and `get_type` are not shown in the neuron's header or implementation. The model takes the label as a field and derives the excitatory flag from it: RS, IB and CH are excitatory.
- `reset()` is not shown either. It is modelled as the firing branch of `equation`.
- src/Network.h:151 declares `update` as returning nothing; the implementation at src/Network.cpp:200 returns the firing list, and the model follows the implementation.
- `neuron_firing` (src/Network.h:127) is declared but never defined, so it is not modelled.
- Getters: the getters (`get_params`, `get_potential`, `get_recovery`, `get_current`, `get_neurons`, `get_links`, `get_noises`) are read through the fields, `State()` and `States()`. Dafny functions cannot change state, so "getters do not modify" holds by construction.
- The `noises` vector (src/Network.h:174) is never written in the network code. It is not modelled.
- Printing (src/Network.cpp:218-257), the simulation driver, command-line parsing, files and `main` are output and I/O around the engine.
- Exceptions other than the one `stod` throws are not modelled.
