/**
 * The population the network constructor builds: floor(number * p) neurons of
 * each type, laid out in contiguous blocks in the order RS, IB, FS, LTS, CH.
 */
module Population {

  import opened TypeMix

  /** `(int)floor(number * types_proportions[t])`: the size of the block of one type. */
  function BlockSize(number: nat, p: real): (n: nat)
    requires 0.0 <= p
    ensures n as real <= number as real * p < n as real + 1.0
  {
    (number as real * p).Floor
  }

  /** The five block sizes, in the order the constructor fills them. */
  function Counts(number: nat, props: map<string, real>): (c: seq<nat>)
    requires ProportionsOk(props)
    ensures |c| == |Kinds|
  {
    [ BlockSize(number, props["RS"]), BlockSize(number, props["IB"]), BlockSize(number, props["FS"]),
      BlockSize(number, props["LTS"]), BlockSize(number, props["CH"]) ]
  }

  function Sum(c: seq<nat>): nat
  {
    if c == [] then 0 else c[0] + Sum(c[1..])
  }

  /** `n` copies of the label `t`. */
  function Repeat(t: string, n: nat): (r: seq<string>)
    ensures |r| == n
    ensures forall i :: 0 <= i < n ==> r[i] == t
  {
    if n == 0 then [] else Repeat(t, n - 1) + [t]
  }

  /** The labels of the neurons created by successive blocks, `counts[k]` of `kinds[k]`. */
  function Layout(kinds: seq<string>, counts: seq<nat>): (r: seq<string>)
    requires |kinds| == |counts|
    ensures |r| == Sum(counts)
  {
    if kinds == [] then [] else Repeat(kinds[0], counts[0]) + Layout(kinds[1..], counts[1..])
  }

  /** The type label of every neuron of a network of `number` neurons with these proportions, by index. */
  function Labels(number: nat, props: map<string, real>): seq<string>
    requires ProportionsOk(props)
  {
    Layout(Kinds, Counts(number, props))
  }

  /** Where the block of `kinds[k]` starts: the total size of the blocks before it. */
  function Offset(counts: seq<nat>, k: nat): nat
    requires k <= |counts|
  {
    Sum(counts[..k])
  }

  /** The five labels are distinct. */
  lemma KindsDistinct()
    ensures forall k, l :: 0 <= k < l < |Kinds| ==> Kinds[k] != Kinds[l]
  {
  }

  /**
   * Rounding down never creates more neurons than asked for: when the
   * proportions sum to at most 1, the network has at most `number` neurons.
   */
  lemma PopulationFits(number: nat, props: map<string, real>)
    requires ProportionsOk(props)
    ensures |Labels(number, props)| <= number
  {
    var c := Counts(number, props);
    SumFive(c);
    assert "RS" in props && "IB" in props && "FS" in props && "LTS" in props && "CH" in props by {
      assert props.Keys == InitialProportions.Keys;
    }
    var p := [props["RS"], props["IB"], props["FS"], props["LTS"], props["CH"]];
    assert forall k :: 0 <= k < 5 ==> c[k] == BlockSize(number, p[k]);
    FloorSumBound(number, c, p);
  }

  lemma SumFive(c: seq<nat>)
    requires |c| == 5
    ensures Sum(c) == c[0] + c[1] + c[2] + c[3] + c[4]
  {
    assert Sum(c[4..]) == c[4] by {
      assert c[4..][1..] == [];
    }
    assert Sum(c[3..]) == c[3] + Sum(c[4..]) by {
      assert c[3..][1..] == c[4..];
    }
    assert Sum(c[2..]) == c[2] + Sum(c[3..]) by {
      assert c[2..][1..] == c[3..];
    }
    assert Sum(c[1..]) == c[1] + Sum(c[2..]) by {
      assert c[1..][1..] == c[2..];
    }
  }

  /** Five counts each at most number * p, with the p summing to at most 1, add up to at most number. */
  lemma FloorSumBound(number: nat, c: seq<nat>, p: seq<real>)
    requires |c| == 5 && |p| == 5
    requires forall k :: 0 <= k < 5 ==> 0.0 <= p[k] && c[k] as real <= number as real * p[k]
    requires p[0] + (p[1] + p[2] + p[3] + p[4]) <= 1.0
    ensures c[0] + c[1] + c[2] + c[3] + c[4] <= number
  {
    var n := number as real;
    assert (c[0] + c[1] + c[2] + c[3] + c[4]) as real
        == c[0] as real + c[1] as real + c[2] as real + c[3] as real + c[4] as real;
    ScaledSumAtMost(n, c[0] as real, c[1] as real, c[2] as real, c[3] as real, c[4] as real,
                    p[0], p[1], p[2], p[3], p[4]);
  }

  /** Five parts each at most n times its share, the shares summing to at most 1, sum to at most n. */
  lemma ScaledSumAtMost(n: real, c0: real, c1: real, c2: real, c3: real, c4: real,
                        p0: real, p1: real, p2: real, p3: real, p4: real)
    requires 0.0 <= n
    requires c0 <= n * p0 && c1 <= n * p1 && c2 <= n * p2 && c3 <= n * p3 && c4 <= n * p4
    requires p0 + (p1 + p2 + p3 + p4) <= 1.0
    ensures c0 + c1 + c2 + c3 + c4 <= n
  {
    assert n * p0 + n * p1 + n * p2 + n * p3 + n * p4 == n * (p0 + (p1 + p2 + p3 + p4));
    MulLeft(n, p0 + (p1 + p2 + p3 + p4), 1.0);
  }

  lemma MulLeft(n: real, x: real, y: real)
    requires 0.0 <= n && x <= y
    ensures n * x <= n * y
  {
    assert n * y - n * x == n * (y - x);
  }

  /** Every neuron of block k has label `kinds[k]`. */
  lemma {:induction false} LayoutAt(kinds: seq<string>, counts: seq<nat>, k: nat, i: nat)
    requires |kinds| == |counts| && k < |kinds|
    requires Offset(counts, k) <= i < Offset(counts, k) + counts[k]
    ensures i < |Layout(kinds, counts)|
    ensures Layout(kinds, counts)[i] == kinds[k]
  {
    OffsetBelowSum(counts, k);
    if k == 0 {
      assert counts[..0] == [];
    } else {
      assert counts[..k][1..] == counts[1..][..k - 1];
      assert i >= counts[0];
      LayoutAt(kinds[1..], counts[1..], k - 1, i - counts[0]);
    }
  }

  lemma {:induction false} OffsetBelowSum(counts: seq<nat>, k: nat)
    requires k < |counts|
    ensures Offset(counts, k) + counts[k] <= Sum(counts)
  {
    if k == 0 {
      assert counts[..0] == [];
    } else {
      assert counts[..k][1..] == counts[1..][..k - 1];
      OffsetBelowSum(counts[1..], k - 1);
    }
  }

  /** The blocks before block k hold only the labels `kinds[..k]`. */
  lemma {:induction false} LayoutBefore(kinds: seq<string>, counts: seq<nat>, k: nat, i: nat)
    requires |kinds| == |counts| && k <= |kinds|
    requires i < Offset(counts, k)
    ensures i < |Layout(kinds, counts)|
    ensures Layout(kinds, counts)[i] in kinds[..k]
  {
    if k == 0 {
      assert false;
    } else {
      assert counts[..k][1..] == counts[1..][..k - 1];
      if i < counts[0] {
        assert Layout(kinds, counts)[i] == kinds[0];
      } else {
        LayoutBefore(kinds[1..], counts[1..], k - 1, i - counts[0]);
        assert kinds[1..][..k - 1] == kinds[..k][1..];
      }
    }
  }

  /** Copies of one label hold that label `n` times and nothing else. */
  lemma {:induction false} RepeatCount(t: string, n: nat, u: string)
    ensures multiset(Repeat(t, n))[u] == if u == t then n else 0
  {
    if n > 0 {
      RepeatCount(t, n - 1, u);
    }
  }

  /** With distinct labels, the layout holds exactly `counts[k]` neurons labelled `kinds[k]`. */
  lemma {:induction false} LayoutCount(kinds: seq<string>, counts: seq<nat>, u: string)
    requires |kinds| == |counts|
    requires forall k, l :: 0 <= k < l < |kinds| ==> kinds[k] != kinds[l]
    ensures u !in kinds ==> multiset(Layout(kinds, counts))[u] == 0
    ensures forall k :: 0 <= k < |kinds| && kinds[k] == u ==> multiset(Layout(kinds, counts))[u] == counts[k]
  {
    if kinds != [] {
      RepeatCount(kinds[0], counts[0], u);
      LayoutCount(kinds[1..], counts[1..], u);
      assert multiset(Layout(kinds, counts)) == multiset(Repeat(kinds[0], counts[0])) + multiset(Layout(kinds[1..], counts[1..]));
      forall k | 0 <= k < |kinds| && kinds[k] == u
        ensures multiset(Layout(kinds, counts))[u] == counts[k]
      {
        if k > 0 {
          assert kinds[1..][k - 1] == u;
          assert u != kinds[0];
        } else {
          assert u !in kinds[1..] by {
            forall l | 0 <= l < |kinds[1..]|
              ensures kinds[1..][l] != u
            {
              assert kinds[l + 1] != kinds[0];
            }
          }
        }
      }
    }
  }

  /** The constructor creates exactly floor(number * p_t) neurons of each type t, and none of any other label. */
  lemma LabelsCount(number: nat, props: map<string, real>, t: string)
    requires ProportionsOk(props)
    ensures t in props ==> multiset(Labels(number, props))[t] == BlockSize(number, props[t])
    ensures t !in props ==> multiset(Labels(number, props))[t] == 0
  {
    KindsDistinct();
    var c := Counts(number, props);
    LayoutCount(Kinds, c, t);
    if t in props {
      assert t == Kinds[0] || t == Kinds[1] || t == Kinds[2] || t == Kinds[3] || t == Kinds[4];
    } else {
      assert t !in Kinds;
    }
  }

  /**
   * The first neuron labelled `kinds[k]` sits at the start of its block, when
   * the block is not empty; every neuron before it has another label.
   */
  lemma FirstOfBlock(kinds: seq<string>, counts: seq<nat>, k: nat)
    requires |kinds| == |counts| && k < |kinds|
    requires forall k1, l :: 0 <= k1 < l < |kinds| ==> kinds[k1] != kinds[l]
    requires counts[k] > 0
    ensures Offset(counts, k) < |Layout(kinds, counts)|
    ensures Layout(kinds, counts)[Offset(counts, k)] == kinds[k]
    ensures forall i :: 0 <= i < Offset(counts, k) ==> Layout(kinds, counts)[i] != kinds[k]
  {
    LayoutAt(kinds, counts, k, Offset(counts, k));
    forall i | 0 <= i < Offset(counts, k)
      ensures Layout(kinds, counts)[i] != kinds[k]
    {
      LayoutBefore(kinds, counts, k, i);
    }
  }

  /** The labels of a network, written out block by block. */
  lemma LabelsFive(number: nat, props: map<string, real>)
    requires ProportionsOk(props)
    ensures var c := Counts(number, props);
            Labels(number, props) == Repeat("RS", c[0]) + Repeat("IB", c[1]) + Repeat("FS", c[2])
                                     + Repeat("LTS", c[3]) + Repeat("CH", c[4])
  {
    var c := Counts(number, props);
    assert Kinds[1..] == ["IB", "FS", "LTS", "CH"];
    assert Kinds[1..][1..] == ["FS", "LTS", "CH"];
    assert Kinds[1..][1..][1..] == ["LTS", "CH"];
    assert Kinds[1..][1..][1..][1..] == ["CH"];
    assert Kinds[1..][1..][1..][1..][1..] == [];
    var l4 := Layout(["CH"], c[4..]);
    assert l4 == Repeat("CH", c[4]) by {
      assert c[4..][1..] == [];
    }
    var l3 := Layout(["LTS", "CH"], c[3..]);
    assert l3 == Repeat("LTS", c[3]) + l4 by {
      assert c[3..][1..] == c[4..];
    }
    var l2 := Layout(["FS", "LTS", "CH"], c[2..]);
    assert l2 == Repeat("FS", c[2]) + l3 by {
      assert c[2..][1..] == c[3..];
    }
    var l1 := Layout(["IB", "FS", "LTS", "CH"], c[1..]);
    assert l1 == Repeat("IB", c[1]) + l2 by {
      assert c[1..][1..] == c[2..];
    }
    assert Labels(number, props) == Repeat("RS", c[0]) + l1;
  }

  /** A type has neurons in the network exactly when it is a known type whose block is not empty. */
  lemma LabelsHaveKind(number: nat, props: map<string, real>, t: string)
    requires ProportionsOk(props)
    ensures (exists i :: 0 <= i < |Labels(number, props)| && Labels(number, props)[i] == t)
        <==> t in props && BlockSize(number, props[t]) > 0
  {
    LabelsCount(number, props, t);
    var l := Labels(number, props);
    if exists i :: 0 <= i < |l| && l[i] == t {
      var i :| 0 <= i < |l| && l[i] == t;
      assert t in multiset(l);
    }
    if t in multiset(l) {
      var i :| 0 <= i < |l| && l[i] == t;
    }
  }

  /** The first neuron of type `Kinds[k]` is at the start of block k, when that block is not empty. */
  lemma LabelsFirst(number: nat, props: map<string, real>, k: nat)
    requires ProportionsOk(props) && k < |Kinds|
    requires BlockSize(number, props[Kinds[k]]) > 0
    ensures Offset(Counts(number, props), k) < |Labels(number, props)|
    ensures Labels(number, props)[Offset(Counts(number, props), k)] == Kinds[k]
    ensures forall i :: 0 <= i < Offset(Counts(number, props), k) ==> Labels(number, props)[i] != Kinds[k]
  {
    KindsDistinct();
    var c := Counts(number, props);
    assert c[k] == BlockSize(number, props[Kinds[k]]);
    FirstOfBlock(Kinds, c, k);
  }
}
