/**
 * `extract_types`: reading the type mix of the network from a string such as
 * "FS:0.2, CH:0.7". Whitespace is removed, the string is cut at commas the
 * way repeated `getline(ss, item, ',')` cuts it, each piece is cut at its
 * first ':' into a label and a number read by `std::stod`, and accepted
 * values are added to a running total that never exceeds 1; RS receives the
 * remainder.
 */
module TypeMix {

  import opened Wrappers

  /** The keys of the initial `types_proportions` map, in the order the constructor lays out blocks. */
  const Kinds: seq<string> := ["RS", "IB", "FS", "LTS", "CH"]

  /** The initial `types_proportions` map: every known label at 0. */
  const InitialProportions: map<string, real> := map["RS" := 0.0, "IB" := 0.0, "FS" := 0.0, "LTS" := 0.0, "CH" := 0.0]

  /** The labels `extract_types` knows: the keys of the initial map. */
  predicate IsKind(t: string)
  {
    t in InitialProportions
  }

  /** The characters `isspace` accepts in the "C" locale. */
  predicate IsSpace(c: char)
  {
    c == ' ' || c == '\t' || c == '\n' || c == '\U{B}' || c == '\U{C}' || c == '\r'
  }

  /** `erase(remove_if(..., isspace))`: the string without its whitespace, order kept. */
  function StripSpace(s: string): (r: string)
    ensures forall k :: 0 <= k < |r| ==> !IsSpace(r[k])
    ensures |r| <= |s|
  {
    if s == [] then []
    else (if IsSpace(s[0]) then [] else [s[0]]) + StripSpace(s[1..])
  }

  /** The position of the first `c` in `s`, or `|s|` when there is none (`find`). */
  function IndexOf(s: string, c: char): (r: nat)
    ensures r <= |s|
    ensures forall k :: 0 <= k < r ==> s[k] != c
    ensures r < |s| ==> s[r] == c
  {
    if s == [] then 0
    else if s[0] == c then 0
    else 1 + IndexOf(s[1..], c)
  }

  /**
   * The pieces successive `getline(ss, item, ',')` calls return: the text
   * between commas, where a final empty piece is not returned.
   */
  function Tokens(s: string): (r: seq<string>)
    ensures forall k :: 0 <= k < |r| ==> ',' !in r[k]
    ensures s == [] <==> r == []
    decreases |s|
  {
    if s == [] then []
    else
      var i := IndexOf(s, ',');
      if i == |s| then [s] else [s[..i]] + Tokens(s[i + 1..])
  }

  /** The pieces joined back with commas. */
  function Join(items: seq<string>): string
  {
    if items == [] then []
    else if |items| == 1 then items[0]
    else items[0] + [','] + Join(items[1..])
  }

  /** Cutting at commas and joining back gives the string again, unless it ends with a comma. */
  lemma {:induction false} TokensJoin(s: string)
    requires s == [] || s[|s| - 1] != ','
    ensures Join(Tokens(s)) == s
    decreases |s|
  {
    if s != [] {
      var i := IndexOf(s, ',');
      if i < |s| {
        var rest := s[i + 1..];
        CommaSplit(s, i);
        TokensJoin(rest);
        JoinCons(s[..i], Tokens(rest));
      }
    }
  }

  /**
   * A text ending in a comma loses its final empty piece: joining the pieces
   * back gives the text without that last comma.
   */
  lemma {:induction false} TokensTrailingComma(s: string)
    requires s != [] && s[|s| - 1] == ','
    ensures Join(Tokens(s)) + [','] == s
    decreases |s|
  {
    var i := IndexOf(s, ',');
    var rest := s[i + 1..];
    assert s == s[..i] + [','] + rest;
    if rest != [] {
      assert rest[|rest| - 1] == ',';
      TokensTrailingComma(rest);
      JoinCons(s[..i], Tokens(rest));
    }
  }

  /** A comma at `i` that is not the last character splits `s` into the text before it and a non-empty rest. */
  lemma CommaSplit(s: string, i: nat)
    requires i < |s| && s[i] == ',' && s[|s| - 1] != ','
    ensures s == s[..i] + [','] + s[i + 1..]
    ensures s[i + 1..] != [] && s[i + 1..][|s[i + 1..]| - 1] == s[|s| - 1]
  {
  }

  /** Joining a first piece before at least one more puts a comma after it. */
  lemma JoinCons(x: string, t: seq<string>)
    requires t != []
    ensures Join([x] + t) == x + [','] + Join(t)
  {
    assert ([x] + t)[1..] == t;
  }

  /** Joining pieces without commas, the last one not empty, and cutting again gives the pieces back. */
  lemma {:induction false} TokensOfJoin(items: seq<string>)
    requires forall k :: 0 <= k < |items| ==> ',' !in items[k]
    requires items == [] || items[|items| - 1] != []
    ensures Tokens(Join(items)) == items
  {
    if |items| == 1 {
      IndexOfAbsent(items[0], ',');
    } else if |items| > 1 {
      var rest := Join(items[1..]);
      IndexOfSplit(items[0], ',', rest);
      var s := items[0] + [','] + rest;
      assert s[..|items[0]|] == items[0];
      assert s[|items[0]| + 1..] == rest;
      TokensOfJoin(items[1..]);
      JoinNonEmpty(items[1..]);
      assert Tokens(s) == [items[0]] + Tokens(rest);
    }
  }

  lemma {:induction false} JoinNonEmpty(items: seq<string>)
    requires items != [] && items[|items| - 1] != []
    ensures Join(items) != []
  {
    if |items| > 1 {
      JoinNonEmpty(items[1..]);
    }
  }

  /** `find` on a string without `c` returns its length. */
  lemma {:induction false} IndexOfAbsent(a: string, c: char)
    requires c !in a
    ensures IndexOf(a, c) == |a|
  {
    if a != [] {
      IndexOfAbsent(a[1..], c);
    }
  }

  /** `find` returns the position of the first `c`. */
  lemma {:induction false} IndexOfSplit(a: string, c: char, b: string)
    requires c !in a
    ensures IndexOf(a + [c] + b, c) == |a|
  {
    if a != [] {
      assert (a + [c] + b)[1..] == a[1..] + [c] + b;
      IndexOfSplit(a[1..], c, b);
    }
  }

  /** One character is dropped when it is whitespace and kept otherwise. */
  lemma StripSpaceChar(c: char)
    ensures StripSpace([c]) == if IsSpace(c) then [] else [c]
  {
  }

  /** Removing whitespace works piece by piece. */
  lemma {:induction false} StripSpaceAppend(a: string, b: string)
    ensures StripSpace(a + b) == StripSpace(a) + StripSpace(b)
  {
    if a == [] {
      assert a + b == b;
    } else {
      assert (a + b)[1..] == a[1..] + b;
      StripSpaceAppend(a[1..], b);
    }
  }

  /** A string without whitespace is kept as it is. */
  lemma {:induction false} StripSpaceNone(a: string)
    requires forall k :: 0 <= k < |a| ==> !IsSpace(a[k])
    ensures StripSpace(a) == a
  {
    if a != [] {
      StripSpaceNone(a[1..]);
    }
  }

  /** A piece "label:text" has that label and hands that text to `stod`. */
  lemma LabelAndValue(kind: string, text: string)
    requires ':' !in kind
    ensures LabelOf(kind + [':'] + text) == kind
    ensures ValueTextOf(kind + [':'] + text) == text
  {
    IndexOfSplit(kind, ':', text);
    var item := kind + [':'] + text;
    assert item[..|kind|] == kind;
    assert item[|kind| + 1..] == text;
  }

  /** `stod` on "i.f" with single digits i and f. */
  lemma ParseTenths(i: char, f: char)
    requires IsDigit(i) && IsDigit(f)
    ensures ParseReal([i, '.', f]) == Some(DigitValue(i) as real + DigitValue(f) as real / 10.0)
  {
    var s := [i, '.', f];
    assert DigitRun(s) == 1 by {
      assert DigitRun(s[1..]) == 0;
    }
    assert s[2..] == [f];
    assert DigitRun([f]) == 1 by {
      assert DigitRun([f][1..]) == 0;
    }
    assert DigitsValue([i]) == DigitValue(i) by {
      assert [i][..0] == [];
    }
    assert FractionValue([f]) == DigitValue(f) as real / 10.0 by {
      assert [f][1..] == [];
    }
    assert s[..1] == [i];
    assert s[2..][..1] == [f];
    assert s[3..] == [] && ExponentOf([]) == 0;
  }

  /** `stod` on a single digit. */
  lemma ParseDigit(i: char)
    requires IsDigit(i)
    ensures ParseReal([i]) == Some(DigitValue(i) as real)
  {
    assert DigitRun([i]) == 1 by {
      assert DigitRun([i][1..]) == 0;
    }
    assert DigitsValue([i]) == DigitValue(i) by {
      assert [i][..0] == [];
    }
  }

  /** The label of a piece: the text before its first ':', or the whole piece. */
  function LabelOf(item: string): string
  {
    item[..IndexOf(item, ':')]
  }

  /** The text handed to `stod`: after the first ':', or the whole piece when there is none. */
  function ValueTextOf(item: string): string
  {
    var colon := IndexOf(item, ':');
    if colon < |item| then item[colon + 1..] else item
  }

  predicate IsDigit(c: char)
  {
    '0' <= c <= '9'
  }

  /** The number of leading decimal digits. */
  function DigitRun(s: string): (n: nat)
    ensures n <= |s|
    ensures forall k :: 0 <= k < n ==> IsDigit(s[k])
    ensures n < |s| ==> !IsDigit(s[n])
  {
    if s != [] && IsDigit(s[0]) then 1 + DigitRun(s[1..]) else 0
  }

  /** The value of a string of decimal digits, most significant first. */
  function DigitsValue(s: string): nat
    requires forall k :: 0 <= k < |s| ==> IsDigit(s[k])
  {
    if s == [] then 0 else 10 * DigitsValue(s[..|s| - 1]) + DigitValue(s[|s| - 1])
  }

  function DigitValue(c: char): (d: nat)
    requires IsDigit(c)
    ensures d <= 9
  {
    c as int - '0' as int
  }

  /** The value of the digits after the decimal point, 0.d1 d2 d3 ... */
  function FractionValue(s: string): real
    requires forall k :: 0 <= k < |s| ==> IsDigit(s[k])
  {
    if s == [] then 0.0 else (DigitValue(s[0]) as real + FractionValue(s[1..])) / 10.0
  }

  /** The exponent of an exponent part "e5", "E-2", ...; 0 when there is no complete exponent. */
  function ExponentOf(s: string): int
  {
    if |s| >= 2 && (s[0] == 'e' || s[0] == 'E') then
      var signLen := if s[1] == '+' || s[1] == '-' then 1 else 0;
      var digits := DigitRun(s[1 + signLen..]);
      if digits == 0 then 0
      else
        var e := DigitsValue(s[1 + signLen..][..digits]) as int;
        if signLen == 1 && s[1] == '-' then -e else e
    else 0
  }

  /** `x` times 10 to the power `e`. */
  function Scaled(x: real, e: int): real
    decreases if e < 0 then -e else e
  {
    if e == 0 then x
    else if e > 0 then Scaled(x * 10.0, e - 1)
    else Scaled(x / 10.0, e + 1)
  }

  /** `s` starts with an optional sign and then a digit, or a point followed by a digit. */
  predicate HasNumber(s: string)
  {
    var body := if |s| > 0 && (s[0] == '+' || s[0] == '-') then s[1..] else s;
    (|body| > 0 && IsDigit(body[0])) || (|body| > 1 && body[0] == '.' && IsDigit(body[1]))
  }

  /**
   * `std::stod` on a decimal numeral: the value of the longest prefix of the
   * form [sign] digits [. digits] [e [sign] digits]; no numeral at the start
   * is the `invalid_argument` exception, modelled as `None`.
   */
  function ParseReal(s: string): (r: Option<real>)
    ensures r.Some? <==> HasNumber(s)
  {
    var signLen := if |s| > 0 && (s[0] == '+' || s[0] == '-') then 1 else 0;
    var body := s[signLen..];
    var intLen := DigitRun(body);
    var hasPoint := intLen < |body| && body[intLen] == '.';
    var fracLen := if hasPoint then DigitRun(body[intLen + 1..]) else 0;
    if intLen == 0 && fracLen == 0 then None
    else
      var fracDigits := if hasPoint then body[intLen + 1..][..fracLen] else [];
      var mantissaEnd := if hasPoint then intLen + 1 + fracLen else intLen;
      var mantissa := DigitsValue(body[..intLen]) as real + FractionValue(fracDigits);
      var magnitude := Scaled(mantissa, ExponentOf(body[mantissaEnd..]));
      Some(if signLen == 1 && s[0] == '-' then -magnitude else magnitude)
  }

  /** The proportions as `extract_types` builds them, with the running total of accepted values. */
  datatype Mix = Mix(props: map<string, real>, total: real)

  function Min(x: real, y: real): real
  {
    if x <= y then x else y
  }

  /** A token is accepted when its clamped value is positive and its label is a known label other than RS. */
  predicate Accepts(kind: string, v: real)
  {
    Min(v, 1.0) > 0.0 && kind != "RS" && IsKind(kind)
  }

  /** One pass of the loop body of `extract_types` on one piece; `None` when `stod` throws. */
  function Absorb(m: Mix, item: string): Option<Mix>
  {
    var kind := LabelOf(item);
    match ParseReal(ValueTextOf(item))
    case None => None
    case Some(v) =>
      var prop := Min(v, 1.0);
      if prop > 0.0 && kind != "RS" && kind in m.props then
        var cut := if m.total + prop > 1.0 then 1.0 - m.total else prop;
        Some(Mix(m.props[kind := cut], m.total + cut))
      else Some(m)
  }

  /** The loop of `extract_types`: while `total < size` and a piece remains. */
  function AbsorbAll(m: Mix, items: seq<string>, size: int): Option<Mix>
    decreases |items|
  {
    if !(m.total < size as real) || items == [] then Some(m)
    else
      match Absorb(m, items[0])
      case None => None
      case Some(m') => AbsorbAll(m', items[1..], size)
  }

  /** `types_proportions` after `extract_types(n_types, number)` on the initial map. */
  function ExtractedTypes(nTypes: string, number: int): Option<map<string, real>>
  {
    if nTypes == [] then Some(InitialProportions["RS" := 0.5]["FS" := 0.5])
    else
      match AbsorbAll(Mix(InitialProportions, 0.0), Tokens(StripSpace(nTypes)), number)
      case None => None
      case Some(m) => Some(if m.total <= 1.0 then m.props["RS" := 1.0 - m.total] else m.props)
  }

  /**
   * `extract_types` on the initial map: the loop reads pieces while the total
   * is below `number`; `None` when `stod` throws on a piece it reads.
   */
  method ExtractTypes(nTypes: string, number: int) returns (r: Option<map<string, real>>)
    ensures r == ExtractedTypes(nTypes, number)
  {
    if nTypes == [] {
      var props := InitialProportions;
      props := props["RS" := 0.5];
      props := props["FS" := 0.5];
      return Some(props);
    }
    var items := Tokens(StripSpace(nTypes));
    var m := ReadPieces(Mix(InitialProportions, 0.0), items, number);
    if m.None? {
      return None;
    }
    var props, total := m.value.props, m.value.total;
    if total <= 1.0 {
      props := props["RS" := 1.0 - total];
    }
    return Some(props);
  }

  /** The loop of `extract_types` over the pieces, from the map and total of `start`. */
  method ReadPieces(start: Mix, items: seq<string>, number: int) returns (r: Option<Mix>)
    ensures r == AbsorbAll(start, items, number)
  {
    var m := start;
    var k := 0;
    while m.total < number as real && k < |items|
      invariant 0 <= k <= |items|
      invariant AbsorbAll(start, items, number) == AbsorbAll(m, items[k..], number)
      decreases |items| - k
    {
      AbsorbAllStep(m, items, k, number);
      var next := ReadPiece(m, items[k]);
      if next.None? {
        return None;
      }
      m := next.value;
      k := k + 1;
    }
    return Some(m);
  }

  /** The body of the loop of `extract_types`: one piece read into the map and the total. */
  method ReadPiece(m: Mix, item: string) returns (r: Option<Mix>)
    ensures r == Absorb(m, item)
  {
    var props, total := m.props, m.total;
    var kind := LabelOf(item);
    var value := ParseReal(ValueTextOf(item));
    if value.None? {
      AbsorbFails(m, item);
      return None;
    }
    var prop := Min(value.value, 1.0);
    if prop > 0.0 && kind != "RS" && kind in props {
      if total + prop > 1.0 {
        prop := 1.0 - total;
      }
      AbsorbAccepted(m, item, value.value, prop);
      props := props[kind := prop];
      total := total + prop;
    } else {
      AbsorbIgnored(m, item, value.value);
    }
    return Some(Mix(props, total));
  }

  /** While the total is below the count, the loop reads piece k and stops or goes on from the result. */
  lemma AbsorbAllStep(m: Mix, items: seq<string>, k: nat, size: int)
    requires k < |items| && m.total < size as real
    ensures Absorb(m, items[k]).None? ==> AbsorbAll(m, items[k..], size).None?
    ensures Absorb(m, items[k]).Some?
            ==> AbsorbAll(m, items[k..], size) == AbsorbAll(Absorb(m, items[k]).value, items[k + 1..], size)
  {
    assert items[k..][0] == items[k] && items[k..][1..] == items[k + 1..];
  }

  /** A piece on which `stod` throws stops the extraction. */
  lemma AbsorbFails(m: Mix, item: string)
    requires ParseReal(ValueTextOf(item)) == None
    ensures Absorb(m, item) == None
  {
  }

  /** An accepted piece sets its label to the clamped value, cut so the total does not pass 1. */
  lemma AbsorbAccepted(m: Mix, item: string, v: real, cut: real)
    requires ParseReal(ValueTextOf(item)) == Some(v)
    requires Min(v, 1.0) > 0.0 && LabelOf(item) != "RS" && LabelOf(item) in m.props
    requires cut == if m.total + Min(v, 1.0) > 1.0 then 1.0 - m.total else Min(v, 1.0)
    ensures Absorb(m, item) == Some(Mix(m.props[LabelOf(item) := cut], m.total + cut))
  {
  }

  /** A piece with a number that is not accepted leaves the map and the total as they are. */
  lemma AbsorbIgnored(m: Mix, item: string, v: real)
    requires ParseReal(ValueTextOf(item)) == Some(v)
    requires !(Min(v, 1.0) > 0.0 && LabelOf(item) != "RS" && LabelOf(item) in m.props)
    ensures Absorb(m, item) == Some(m)
  {
  }

  /** The sum of the non-RS proportions. */
  function OthersSum(p: map<string, real>): real
    requires "IB" in p && "FS" in p && "LTS" in p && "CH" in p
  {
    p["IB"] + p["FS"] + p["LTS"] + p["CH"]
  }

  /** A proportions map as the constructor needs it: the five labels, each in [0, 1], summing to at most 1. */
  predicate ProportionsOk(p: map<string, real>)
  {
    && p.Keys == InitialProportions.Keys
    && (forall t :: t in p ==> 0.0 <= p[t] <= 1.0)
    && p["RS"] + OthersSum(p) <= 1.0
  }

  /** What holds of the map and the total at every turn of the loop. */
  predicate MixOk(m: Mix)
  {
    && m.props.Keys == InitialProportions.Keys
    && m.props["RS"] == 0.0
    && 0.0 <= m.total <= 1.0
    && (forall t :: t in m.props ==> 0.0 <= m.props[t] <= 1.0)
    && OthersSum(m.props) <= m.total
  }

  /**
   * One piece: `None` exactly when `stod` finds no number; an ignored piece
   * (label RS, unknown label, value <= 0) changes nothing; an accepted one sets
   * its label to the value clamped to 1 and cut so that the total does not pass 1.
   */
  lemma AbsorbToken(m: Mix, item: string)
    requires MixOk(m)
    ensures Absorb(m, item).Some? <==> HasNumber(ValueTextOf(item))
    ensures Absorb(m, item).Some? && !Accepts(LabelOf(item), ParseReal(ValueTextOf(item)).value)
            ==> Absorb(m, item).value == m
    ensures Absorb(m, item).Some? && Accepts(LabelOf(item), ParseReal(ValueTextOf(item)).value)
            ==> var v := ParseReal(ValueTextOf(item)).value;
                var r := Absorb(m, item).value;
                var p := r.props[LabelOf(item)];
                && r.props == m.props[LabelOf(item) := p]
                && r.total == m.total + p
                && 0.0 <= p <= 1.0 && p <= v
                && (p < Min(v, 1.0) ==> r.total == 1.0)
    ensures Absorb(m, item).Some? ==> MixOk(Absorb(m, item).value)
  {
    var kind := LabelOf(item);
    match ParseReal(ValueTextOf(item))
    case None =>
      AbsorbFails(m, item);
    case Some(v) =>
      assert kind in m.props <==> IsKind(kind) by {
        assert m.props.Keys == InitialProportions.Keys;
      }
      if Min(v, 1.0) > 0.0 && kind != "RS" && kind in m.props {
        var cut := if m.total + Min(v, 1.0) > 1.0 then 1.0 - m.total else Min(v, 1.0);
        AbsorbAccepted(m, item, v, cut);
        CutKeepsMix(m, kind, cut);
      } else {
        AbsorbIgnored(m, item, v);
      }
  }

  /** Setting a known label other than RS to a value in [0, 1] that keeps the total at most 1 keeps the mix well formed. */
  lemma CutKeepsMix(m: Mix, kind: string, cut: real)
    requires MixOk(m) && kind in m.props && kind != "RS"
    requires 0.0 <= cut <= 1.0 && m.total + cut <= 1.0
    ensures MixOk(Mix(m.props[kind := cut], m.total + cut))
  {
    var p := m.props[kind := cut];
    assert p.Keys == m.props.Keys;
    assert OthersSum(p) <= OthersSum(m.props) + cut by {
      assert kind in InitialProportions;
      assert kind == "IB" || kind == "FS" || kind == "LTS" || kind == "CH";
    }
  }

  /** The running total never exceeds 1 and the map keeps its shape, however many pieces are read. */
  lemma {:induction false} AbsorbAllKeepsMix(m: Mix, items: seq<string>, size: int)
    requires MixOk(m)
    ensures AbsorbAll(m, items, size).Some? ==> MixOk(AbsorbAll(m, items, size).value)
    decreases |items|
  {
    if m.total < size as real && items != [] {
      AbsorbToken(m, items[0]);
      if Absorb(m, items[0]).Some? {
        AbsorbAllKeepsMix(Absorb(m, items[0]).value, items[1..], size);
      }
    }
  }

  lemma InitialMixOk()
    ensures MixOk(Mix(InitialProportions, 0.0))
  {
  }

  /**
   * Whenever extraction succeeds the map has the five labels, each in [0, 1],
   * summing to at most 1, RS being the remainder 1 - total of what was accepted.
   */
  lemma ExtractedTypesOk(nTypes: string, number: int)
    ensures ExtractedTypes(nTypes, number).Some? ==> ProportionsOk(ExtractedTypes(nTypes, number).value)
    ensures nTypes != [] && ExtractedTypes(nTypes, number).Some?
            ==> var m := AbsorbAll(Mix(InitialProportions, 0.0), Tokens(StripSpace(nTypes)), number).value;
                && 0.0 <= m.total <= 1.0
                && ExtractedTypes(nTypes, number).value == m.props["RS" := 1.0 - m.total]
  {
    if nTypes != [] {
      var start := Mix(InitialProportions, 0.0);
      var items := Tokens(StripSpace(nTypes));
      InitialMixOk();
      AbsorbAllKeepsMix(start, items, number);
      var r := AbsorbAll(start, items, number);
      if r.Some? {
        var m := r.value;
        assert ExtractedTypes(nTypes, number) == Some(m.props["RS" := 1.0 - m.total]);
        MixRemainder(m);
      }
    }
  }

  /** Giving RS the remainder of a well-formed mix yields proportions the constructor accepts. */
  lemma MixRemainder(m: Mix)
    requires MixOk(m)
    ensures ProportionsOk(m.props["RS" := 1.0 - m.total])
  {
  }

  /** An empty spec gives RS and FS one half each and the other labels 0. */
  lemma ExtractedEmpty(number: int)
    ensures ExtractedTypes([], number)
         == Some(map["RS" := 0.5, "IB" := 0.0, "FS" := 0.5, "LTS" := 0.0, "CH" := 0.0])
  {
    var r := InitialProportions["RS" := 0.5]["FS" := 0.5];
    var expected := map["RS" := 0.5, "IB" := 0.0, "FS" := 0.5, "LTS" := 0.0, "CH" := 0.0];
    assert r.Keys == expected.Keys;
    assert forall t :: t in r ==> r[t] == expected[t];
    assert r == expected;
    assert ExtractedTypes([], number) == Some(r);
  }

  /**
   * The loop guard compares the total with the neuron count: once the count is
   * at least 2 it never stops the loop early, so the count does not matter.
   */
  lemma {:induction false} AbsorbAllGuardInert(m: Mix, items: seq<string>, size: int, size': int)
    requires MixOk(m) && size >= 2 && size' >= 2
    ensures AbsorbAll(m, items, size) == AbsorbAll(m, items, size')
    decreases |items|
  {
    if items != [] {
      AbsorbToken(m, items[0]);
      if Absorb(m, items[0]).Some? {
        AbsorbAllGuardInert(Absorb(m, items[0]).value, items[1..], size, size');
      }
    }
  }

  /** With a count of 0 or less the guard fails at once: no piece is read and RS gets everything. */
  lemma ExtractedNoCount(nTypes: string, number: int)
    requires nTypes != [] && number <= 0
    ensures ExtractedTypes(nTypes, number) == Some(InitialProportions["RS" := 1.0])
  {
  }
}
