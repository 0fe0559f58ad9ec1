/**
 * The sparse directed graph of the network: a map from the ordered pair
 * (receiving neuron, sending neuron) to the link intensity, read one
 * receiver at a time in ascending sender order.
 */
module Graph {

  /** `Link`: (receiver, sender) to intensity; a map holds at most one entry per ordered pair. */
  type Links = map<(nat, nat), real>

  /** Every link joins two distinct neurons of a network of `size` neurons. */
  predicate WellFormed(links: Links, size: nat)
  {
    forall key :: key in links ==> key.0 != key.1 && key.0 < size && key.1 < size
  }

  /**
   * What `find_neighbours(n)` returns: the (sender, intensity) pairs of the
   * links received by `n` from senders below `size`, by ascending sender.
   */
  function Incoming(links: Links, n: nat, size: nat): (r: seq<(nat, real)>)
    ensures forall k :: 0 <= k < |r| ==> r[k].0 < size && (n, r[k].0) in links && links[(n, r[k].0)] == r[k].1
    ensures forall k, l :: 0 <= k < l < |r| ==> r[k].0 < r[l].0
    ensures forall s :: 0 <= s < size && (n, s) in links ==> (s, links[(n, s)]) in r
    decreases size
  {
    if size == 0 then []
    else
      var prefix := Incoming(links, n, size - 1);
      if (n, size - 1) in links then prefix + [(size - 1, links[(n, size - 1)])] else prefix
  }

  /** The in-degree of `n`: the number of links it receives from senders below `size`. */
  function InDegree(links: Links, n: nat, size: nat): nat
  {
    if size == 0 then 0 else InDegree(links, n, size - 1) + (if (n, size - 1) in links then 1 else 0)
  }

  /** The in-degree is the number of neighbours `find_neighbours` reports. */
  lemma {:induction false} InDegreeIsNeighbourCount(links: Links, n: nat, size: nat)
    ensures InDegree(links, n, size) == |Incoming(links, n, size)|
  {
    if size > 0 {
      InDegreeIsNeighbourCount(links, n, size - 1);
    }
  }

  /** Two link maps with the same links into `n` from senders below `size` give `n` the same neighbours. */
  lemma {:induction false} IncomingAgree(links: Links, links': Links, n: nat, size: nat)
    requires forall s :: s < size ==> ((n, s) in links <==> (n, s) in links')
    requires forall s :: s < size && (n, s) in links ==> links[(n, s)] == links'[(n, s)]
    ensures Incoming(links, n, size) == Incoming(links', n, size)
  {
    if size > 0 {
      IncomingAgree(links, links', n, size - 1);
    }
  }

  /** Two link maps with the same links into `n` from senders below `size` give `n` the same in-degree. */
  lemma {:induction false} DegreeAgree(links: Links, links': Links, n: nat, size: nat)
    requires forall s :: s < size ==> ((n, s) in links <==> (n, s) in links')
    ensures InDegree(links, n, size) == InDegree(links', n, size)
  {
    if size > 0 {
      DegreeAgree(links, links', n, size - 1);
    }
  }

  /** Adding a new link into `n` from a sender below `size` raises its in-degree by one. */
  lemma {:induction false} DegreeAdd(links: Links, n: nat, s: nat, w: real, size: nat)
    requires s < size && (n, s) !in links
    ensures InDegree(links[(n, s) := w], n, size) == InDegree(links, n, size) + 1
  {
    var links' := links[(n, s) := w];
    if s == size - 1 {
      DegreeAgree(links, links', n, size - 1);
    } else {
      DegreeAdd(links, n, s, w, size - 1);
    }
  }

  /** With no self-link, a receiver has at most `size - 1` senders. */
  lemma {:induction false} DegreeAtMost(links: Links, n: nat, size: nat)
    requires (n, n) !in links && n < size
    ensures InDegree(links, n, size) <= size - 1
  {
    if size - 1 > n {
      DegreeAtMost(links, n, size - 1);
    } else {
      DegreeAtMostBelow(links, n, size - 1);
    }
  }

  lemma {:induction false} DegreeAtMostBelow(links: Links, n: nat, size: nat)
    ensures InDegree(links, n, size) <= size
  {
    if size > 0 {
      DegreeAtMostBelow(links, n, size - 1);
    }
  }

  /** A receiver linked from every other neuron and not from itself has `size - 1` senders. */
  lemma {:induction false} DegreeFull(links: Links, n: nat, size: nat)
    requires n < size && (n, n) !in links
    requires forall s :: 0 <= s < size && s != n ==> (n, s) in links
    ensures InDegree(links, n, size) == size - 1
  {
    DegreeFullUpTo(links, n, size);
  }

  lemma {:induction false} DegreeFullUpTo(links: Links, n: nat, k: nat)
    requires (n, n) !in links
    requires forall s :: 0 <= s < k && s != n ==> (n, s) in links
    ensures InDegree(links, n, k) == if n < k then k - 1 else k
  {
    if k > 0 {
      DegreeFullUpTo(links, n, k - 1);
    }
  }

  /** A receiver with no links has in-degree 0. */
  lemma {:induction false} DegreeNone(links: Links, n: nat, size: nat)
    requires forall s :: (n, s) !in links
    ensures InDegree(links, n, size) == 0
  {
    if size > 0 {
      DegreeNone(links, n, size - 1);
    }
  }

  /** A receiver with no links has no neighbours. */
  lemma {:induction false} IncomingNone(links: Links, n: nat, size: nat)
    requires forall s :: (n, s) !in links
    ensures Incoming(links, n, size) == []
  {
    if size > 0 {
      IncomingNone(links, n, size - 1);
    }
  }

  /** `index` after a shuffle: a rearrangement of 0 .. n-1, each value once. */
  predicate IsShuffleOf(index: seq<nat>, n: nat)
  {
    && |index| == n
    && (forall k :: 0 <= k < n ==> index[k] < n)
    && (forall s :: 0 <= s < n ==> s in index)
    && (forall k, l :: 0 <= k < l < n ==> index[k] != index[l])
  }

  /**
   * The senders `random_connect` links into receiver j: the first k entries of
   * the shuffled index other than j, or all of them when there are fewer.
   */
  function FirstOthers(index: seq<nat>, j: nat, k: int): (r: seq<nat>)
    ensures forall s :: s in r ==> s in index && s != j
    ensures |r| <= if k <= 0 then 0 else k
  {
    FirstOthersFrom(index, 0, j, k)
  }

  /** The first k entries other than j among the attempts from `from` on. */
  function FirstOthersFrom(index: seq<nat>, from: nat, j: nat, k: int): (r: seq<nat>)
    ensures forall s :: s in r ==> s in index && s != j
    ensures |r| <= if k <= 0 then 0 else k
    decreases |index| - from
  {
    if from >= |index| || k <= 0 then []
    else if index[from] == j then FirstOthersFrom(index, from + 1, j, k)
    else [index[from]] + FirstOthersFrom(index, from + 1, j, k - 1)
  }

  /** How many of the attempts from .. m-1 try a sender other than j. */
  function OthersTried(index: seq<nat>, from: nat, m: nat, j: nat): nat
    requires from <= m <= |index|
    decreases m - from
  {
    if from == m then 0
    else (if index[from] != j then 1 else 0) + OthersTried(index, from + 1, m, j)
  }

  /** One more attempt adds one to the count exactly when it tries a sender other than j. */
  lemma {:induction false} OthersTriedSnoc(index: seq<nat>, from: nat, m: nat, j: nat)
    requires from <= m < |index|
    ensures OthersTried(index, from, m + 1, j) == OthersTried(index, from, m, j) + (if index[m] != j then 1 else 0)
    decreases m - from
  {
    if from < m {
      OthersTriedSnoc(index, from + 1, m, j);
    }
  }

  /** Some attempt from .. m-1 tried s, and s is not j. */
  ghost predicate TriedOther(index: seq<nat>, from: nat, m: nat, j: nat, s: nat)
  {
    exists m' :: from <= m' < m && m' < |index| && index[m'] == s && s != j
  }

  /**
   * Attempts from .. m-1 that stop either at the end of the shuffle or once k
   * senders other than j were met hold exactly the senders of `FirstOthersFrom`.
   */
  lemma {:induction false} FirstOthersTried(index: seq<nat>, from: nat, m: nat, j: nat, k: int)
    requires from <= m <= |index|
    requires m == |index| || OthersTried(index, from, m, j) >= k
    requires OthersTried(index, from, m, j) <= k || OthersTried(index, from, m, j) == 0
    ensures forall s :: s in FirstOthersFrom(index, from, j, k) <==> TriedOther(index, from, m, j, s)
    decreases m - from
  {
    if from == m {
      assert FirstOthersFrom(index, from, j, k) == [];
    } else if index[from] == j {
      FirstOthersTried(index, from + 1, m, j, k);
      assert FirstOthersFrom(index, from, j, k) == FirstOthersFrom(index, from + 1, j, k);
      forall s | TriedOther(index, from, m, j, s)
        ensures TriedOther(index, from + 1, m, j, s)
      {
        var m' :| from <= m' < m && m' < |index| && index[m'] == s && s != j;
        assert m' != from;
      }
    } else {
      FirstOthersTried(index, from + 1, m, j, k - 1);
      assert FirstOthersFrom(index, from, j, k) == [index[from]] + FirstOthersFrom(index, from + 1, j, k - 1);
      forall s | TriedOther(index, from, m, j, s)
        ensures s == index[from] || TriedOther(index, from + 1, m, j, s)
      {
        var m' :| from <= m' < m && m' < |index| && index[m'] == s && s != j;
        if m' != from {
          assert from + 1 <= m' < m;
        }
      }
    }
  }

  /**
   * `calculate_connections`: the target in-degree of one receiver.
   * `draw` is the Poisson draw the "poisson" and "over-dispersed" models make.
   */
  function LinkNumber(model: string, connectivity: real, draw: nat): (k: int)
    ensures model != "poisson" && model != "over-dispersed" ==> k == connectivity.Floor
    ensures model == "poisson" || model == "over-dispersed" ==> k == draw
    ensures k <= connectivity.Floor || model == "poisson" || model == "over-dispersed"
  {
    if model == "constant" then connectivity.Floor
    else if model == "poisson" then draw
    else if model == "over-dispersed" then draw
    else connectivity.Floor
  }

  /** The in-degree `random_connect` gives a receiver that asks for `k` links. */
  function ExpectedDegree(k: int, size: nat): nat
  {
    if size == 0 then 0
    else if k <= 0 then 0
    else if k < size - 1 then k
    else size - 1
  }
}
