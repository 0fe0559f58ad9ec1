/**
 * Worked inputs of `extract_types`: the residual rule, the cut at a total of 1,
 * and consequences of the loop guard `total < size`. The inputs are
 * parameters fixed by the precondition, which keeps the verifier from
 * unfolding the parser on the literal text.
 */
module TypeMixExamples {

  import opened Wrappers
  import opened TypeMix

  /** The pieces of a text without whitespace that is a comma-join of comma-free pieces. */
  lemma PiecesOf(s: string, items: seq<string>)
    requires forall k :: 0 <= k < |s| ==> !IsSpace(s[k])
    requires s == Join(items)
    requires forall k :: 0 <= k < |items| ==> ',' !in items[k]
    requires items == [] || items[|items| - 1] != []
    ensures Tokens(StripSpace(s)) == items
  {
    StripSpaceNone(s);
    TokensOfJoin(items);
  }

  /**
   * With one neuron the guard stops the loop once the total reaches 1, so a
   * malformed piece after it is never read; with two neurons it is read and
   * `stod` throws.
   */
  lemma GuardStopsOnlyForOneNeuron(s: string)
    requires s == "FS:1,x"
    ensures ExtractedTypes(s, 1) == Some(InitialProportions["FS" := 1.0]["RS" := 0.0])
    ensures ExtractedTypes(s, 2) == None
  {
    var items := ["FS:1", "x"];
    var m0 := Mix(InitialProportions, 0.0);
    var m1 := Mix(InitialProportions["FS" := 1.0], 1.0);
    OneNeuronPieces(s, items);
    WholeFirstPiece(m0, items[0], m1);
    MalformedSecondPiece(m1, items[1]);
    AbsorbAllStep(m0, items, 0, 1);
    AbsorbAllStep(m0, items, 0, 2);
    assert AbsorbAll(m1, items[1..], 1) == Some(m1);
    assert AbsorbAll(m1, items[1..], 2) == None;
  }

  /**
   * With two neurons the loop goes on after the total reaches 1: a repeated
   * "FS:1" is accepted, cut to 0, and overwrites FS, so every proportion ends at 0.
   */
  lemma RepeatedLabelZeroed(s: string)
    requires s == "FS:1,FS:1"
    ensures ExtractedTypes(s, 2) == Some(InitialProportions)
  {
    var items := ["FS:1", "FS:1"];
    var m0 := Mix(InitialProportions, 0.0);
    var m1 := Mix(InitialProportions["FS" := 1.0], 1.0);
    var m2 := Mix(InitialProportions["FS" := 1.0]["FS" := 0.0], 1.0);
    assert Join(items) == s by {
      assert items[1..] == ["FS:1"];
    }
    PiecesOf(s, items);
    WholeFirstPiece(m0, items[0], m1);
    PieceAfterFullTotal(m1, items[1], m2);
    AbsorbAllStep(m0, items, 0, 2);
    AbsorbAllStep(m1, items, 1, 2);
    assert AbsorbAll(m2, items[2..], 2) == Some(m2);
    ZeroedMix(m2.props["RS" := 0.0]);
  }

  lemma ZeroedMix(p: map<string, real>)
    requires p == InitialProportions["FS" := 1.0]["FS" := 0.0]["RS" := 0.0]
    ensures p == InitialProportions
  {
    assert p.Keys == InitialProportions.Keys;
  }

  /** "FS:1" once the total is 1 is still accepted, and its value is cut to 0. */
  lemma PieceAfterFullTotal(m1: Mix, item: string, m2: Mix)
    requires m1 == Mix(InitialProportions["FS" := 1.0], 1.0) && item == "FS:1"
    requires m2 == Mix(m1.props["FS" := 0.0], 1.0)
    ensures Absorb(m1, item) == Some(m2)
  {
    ThreeLabels();
    ParseDigit('1');
    assert DigitValue('1') == 1;
    AbsorbOverflowing(m1, item, "FS", "1", 1.0, m2);
  }

  lemma OneNeuronPieces(s: string, items: seq<string>)
    requires s == "FS:1,x" && items == ["FS:1", "x"]
    ensures Tokens(StripSpace(s)) == items
  {
    assert Join(items) == s by {
      assert items[1..] == ["x"];
    }
    PiecesOf(s, items);
  }

  /** "FS:1" on the initial map sets FS to 1 and fills the total. */
  lemma WholeFirstPiece(m0: Mix, item: string, m1: Mix)
    requires m0 == Mix(InitialProportions, 0.0) && item == "FS:1"
    requires m1 == Mix(InitialProportions["FS" := 1.0], 1.0)
    ensures Absorb(m0, item) == Some(m1)
  {
    ThreeLabels();
    ParseDigit('1');
    assert DigitValue('1') == 1;
    AbsorbFitting(m0, item, "FS", "1", 1.0, m1);
  }

  /** "x" has no ':' and no number: `stod` throws on it. */
  lemma MalformedSecondPiece(m: Mix, item: string)
    requires item == "x"
    ensures Absorb(m, item) == None
  {
    IndexOfAbsent(item, ':');
    assert ValueTextOf(item) == item;
  }

  /** The comma-join of three pieces. */
  lemma JoinThree(a: string, b: string, c: string)
    ensures Join([a, b, c]) == a + [','] + b + [','] + c
  {
    assert [a, b, c][1..] == [b, c];
    assert [b, c][1..] == [c];
    assert Join([b, c]) == b + [','] + c;
    assert a + [','] + (b + [','] + c) == a + [','] + b + [','] + c;
  }

  /** An accepted piece "kind:text" whose value fits under the remaining total is stored as read. */
  lemma AbsorbFitting(m: Mix, item: string, kind: string, text: string, v: real, m': Mix)
    requires item == kind + [':'] + text
    requires m' == Mix(m.props[kind := v], m.total + v)
    requires ':' !in kind && kind in m.props && kind != "RS"
    requires ParseReal(text) == Some(v)
    requires 0.0 <= m.total && 0.0 < v && m.total + v <= 1.0
    ensures Absorb(m, item) == Some(m')
  {
    LabelAndValue(kind, text);
    assert Min(v, 1.0) == v;
    AbsorbAccepted(m, item, v, v);
  }

  /** An accepted piece "kind:text" whose value would pass a total of 1 is cut to fill it exactly. */
  lemma AbsorbOverflowing(m: Mix, item: string, kind: string, text: string, v: real, m': Mix)
    requires item == kind + [':'] + text
    requires ':' !in kind && kind in m.props && kind != "RS"
    requires ParseReal(text) == Some(v)
    requires 0.0 < v && m.total + Min(v, 1.0) > 1.0
    requires m' == Mix(m.props[kind := 1.0 - m.total], 1.0)
    ensures Absorb(m, item) == Some(m')
  {
    LabelAndValue(kind, text);
    AbsorbAccepted(m, item, v, 1.0 - m.total);
  }

  /** Three pieces read one after the other while the total stays below the count. */
  lemma AbsorbThree(m0: Mix, a: string, b: string, c: string, m1: Mix, m2: Mix, m3: Mix, size: int)
    requires Absorb(m0, a) == Some(m1) && Absorb(m1, b) == Some(m2) && Absorb(m2, c) == Some(m3)
    requires m0.total < size as real && m1.total < size as real && m2.total < size as real
    ensures AbsorbAll(m0, [a, b, c], size) == Some(m3)
  {
    AbsorbAllStep(m2, [c], 0, size);
    AbsorbAllStep(m1, [b, c], 0, size);
    AbsorbAllStep(m0, [a, b, c], 0, size);
  }

  /** The three values of the example below, as `stod` reads them. */
  lemma ThreeValues(x: string, y: string, z: string)
    requires x == ['0', '.', '2'] && y == ['0', '.', '1'] && z == ['0', '.', '7']
    ensures ParseReal(x) == Some(0.2) && ParseReal(y) == Some(0.1) && ParseReal(z) == Some(0.7)
  {
    ParseTenths('0', '2');
    ParseTenths('0', '1');
    ParseTenths('0', '7');
  }

  /** The loop of `extract_types` on the three pieces of the example below. */
  lemma ThreeAbsorbed(a: string, b: string, c: string, x: string, y: string, z: string)
    requires ParseReal(x) == Some(0.2) && ParseReal(y) == Some(0.1) && ParseReal(z) == Some(0.7)
    requires a == "FS" + [':'] + x && b == "LTS" + [':'] + y && c == "CH" + [':'] + z
    ensures AbsorbAll(Mix(InitialProportions, 0.0), [a, b, c], 100)
         == Some(Mix(InitialProportions["FS" := 0.2]["LTS" := 0.1]["CH" := 0.7], 1.0))
  {
    var m0 := Mix(InitialProportions, 0.0);
    var m1 := Mix(m0.props["FS" := 0.2], m0.total + 0.2);
    var m2 := Mix(m1.props["LTS" := 0.1], m1.total + 0.1);
    var m3 := Mix(m2.props["CH" := 0.7], m2.total + 0.7);
    ThreeLabels();
    AbsorbFitting(m0, a, "FS", x, 0.2, m1);
    AbsorbFitting(m1, b, "LTS", y, 0.1, m2);
    AbsorbFitting(m2, c, "CH", z, 0.7, m3);
    AbsorbThree(m0, a, b, c, m1, m2, m3, 100);
  }

  /** The three labels of the example are known, other than RS, and without ':'. */
  lemma ThreeLabels()
    ensures ':' !in "FS" && ':' !in "LTS" && ':' !in "CH"
    ensures "FS" in InitialProportions && "LTS" in InitialProportions && "CH" in InitialProportions
    ensures "FS" != "RS" && "LTS" != "RS" && "CH" != "RS"
  {
  }

  /** "FS:0.2,LTS:0.1,CH:0.7": three accepted values summing to exactly 1 leave RS at 0. */
  lemma ThreeTypesFillTheMix(s: string, x: string, y: string, z: string)
    requires x == "0.2" && y == "0.1" && z == "0.7"
    requires s == "FS" + [':'] + x + [','] + "LTS" + [':'] + y + [','] + "CH" + [':'] + z
    ensures ExtractedTypes(s, 100)
         == Some(map["RS" := 0.0, "IB" := 0.0, "FS" := 0.2, "LTS" := 0.1, "CH" := 0.7])
  {
    var a, b, c := "FS" + [':'] + x, "LTS" + [':'] + y, "CH" + [':'] + z;
    assert Tokens(StripSpace(s)) == [a, b, c] by {
      JoinThree(a, b, c);
      PiecesOf(s, [a, b, c]);
    }
    ThreeValues(x, y, z);
    ThreeAbsorbed(a, b, c, x, y, z);
    FilledMix(InitialProportions["FS" := 0.2]["LTS" := 0.1]["CH" := 0.7]);
  }

  lemma FilledMix(p: map<string, real>)
    requires p == InitialProportions["FS" := 0.2]["LTS" := 0.1]["CH" := 0.7]
    ensures p["RS" := 0.0] == map["RS" := 0.0, "IB" := 0.0, "FS" := 0.2, "LTS" := 0.1, "CH" := 0.7]
  {
    var r := p["RS" := 0.0];
    var expected := map["RS" := 0.0, "IB" := 0.0, "FS" := 0.2, "LTS" := 0.1, "CH" := 0.7];
    assert r.Keys == expected.Keys;
    assert forall t :: t in r ==> r[t] == expected[t];
  }
}
