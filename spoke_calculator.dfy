/**
 * Bicycle wheel spoke length calculation: input validation, the spoke length
 * formula, and the table of common wheel sizes.
 *
 * Lengths are in millimetres. Floating-point numbers are modelled as exact
 * reals; the transcendental primitives (cos, sin, sqrt, pi) are parameters.
 */
module SpokeCalculator {

  // ---------------------------------------------------------------------------
  // Data model
  // ---------------------------------------------------------------------------

  /** The four geometric inputs of a wheel build. */
  datatype WheelSpecs = WheelSpecs(
    rimEffectiveDiameter: real,  // mm
    spokeCount: int,
    crossPattern: int,           // 0-4
    hubFlangeDiameter: real      // mm
  )

  /** What a calculation returns: a length (0 when invalid), a flag and the violations. */
  datatype CalculationResult = CalculationResult(
    spokeLength: real,  // mm
    isValid: bool,
    errors: seq<string>
  )

  /** One entry of the common wheel sizes table. */
  datatype WheelSize = WheelSize(name: string, diameter: real)

  // ---------------------------------------------------------------------------
  // Validation rules
  // ---------------------------------------------------------------------------

  const RimMessage: string := "Rim effective diameter must be between 1-1000mm"
  const SpokeCountMessage: string := "Spoke count must be between 8-48 and divisible by 4"
  const CrossPatternMessage: string := "Cross pattern must be between 0-4"
  const HubRangeMessage: string := "Hub flange diameter must be between 1-200mm"
  const HubBelowRimMessage: string := "Hub flange diameter must be smaller than rim diameter"

  /** The five independent checks of the validator. */
  datatype Rule = RimRange | SpokeCountRange | CrossPatternRange | HubRange | HubBelowRim

  /** The order in which the validator evaluates the rules. */
  const RuleOrder: seq<Rule> := [RimRange, SpokeCountRange, CrossPatternRange, HubRange, HubBelowRim]

  /** Position of a rule in RuleOrder. */
  function Rank(r: Rule): nat
  {
    match r
    case RimRange => 0
    case SpokeCountRange => 1
    case CrossPatternRange => 2
    case HubRange => 3
    case HubBelowRim => 4
  }

  /** The fixed message a rule contributes when it fails. */
  function Message(r: Rule): string
  {
    match r
    case RimRange => RimMessage
    case SpokeCountRange => SpokeCountMessage
    case CrossPatternRange => CrossPatternMessage
    case HubRange => HubRangeMessage
    case HubBelowRim => HubBelowRimMessage
  }

  /** The failure condition of each rule, as the validator tests it. */
  predicate Fails(r: Rule, s: WheelSpecs)
  {
    match r
    case RimRange => s.rimEffectiveDiameter <= 0.0 || s.rimEffectiveDiameter > 1000.0
    case SpokeCountRange => s.spokeCount < 8 || s.spokeCount > 48 || s.spokeCount % 4 != 0
    case CrossPatternRange => s.crossPattern < 0 || s.crossPattern > 4
    case HubRange => s.hubFlangeDiameter <= 0.0 || s.hubFlangeDiameter > 200.0
    case HubBelowRim => s.hubFlangeDiameter >= s.rimEffectiveDiameter
  }

  /** The five invariants a usable specification satisfies, stated positively. */
  predicate Valid(s: WheelSpecs)
  {
    && 0.0 < s.rimEffectiveDiameter <= 1000.0
    && 8 <= s.spokeCount <= 48 && s.spokeCount % 4 == 0
    && 0 <= s.crossPattern <= 4
    && 0.0 < s.hubFlangeDiameter <= 200.0
    && s.hubFlangeDiameter < s.rimEffectiveDiameter
  }

  /** Rules are listed in strictly increasing rank. */
  predicate Ordered(rules: seq<Rule>)
  {
    forall i, j | 0 <= i < j < |rules| :: Rank(rules[i]) < Rank(rules[j])
  }

  /** The rules of `rules` that fail on `s`, in their order (a filter). */
  function FailedRules(rules: seq<Rule>, s: WheelSpecs): (f: seq<Rule>)
    ensures |f| <= |rules|
  {
    if rules == [] then []
    else
      var last := rules[|rules| - 1];
      FailedRules(rules[..|rules| - 1], s) + (if Fails(last, s) then [last] else [])
  }

  /** The messages of a list of rules, position by position. */
  function Messages(rules: seq<Rule>): (m: seq<string>)
    ensures |m| == |rules|
    ensures forall i | 0 <= i < |rules| :: m[i] == Message(rules[i])
  {
    if rules == [] then [] else Messages(rules[..|rules| - 1]) + [Message(rules[|rules| - 1])]
  }

  /** Specification of the validator: one message per failed rule, in rule order. */
  function Violations(s: WheelSpecs): seq<string>
  {
    Messages(FailedRules(RuleOrder, s))
  }

  /**
   * Checking one more rule `r` keeps `errors` equal to the messages of the
   * failed rules checked so far, provided its message is appended exactly
   * when `r` fails.
   */
  lemma ViolationsStep(checked: seq<Rule>, r: Rule, next: seq<Rule>, s: WheelSpecs,
                       failed: bool, errors: seq<string>, pushed: seq<string>)
    requires next == checked + [r]
    requires errors == Messages(FailedRules(checked, s))
    requires failed == Fails(r, s)
    requires pushed == if failed then errors + [Message(r)] else errors
    ensures pushed == Messages(FailedRules(next, s))
  {
  }

  /** RuleOrder, built up one rule at a time as the validator checks them. */
  lemma RuleOrderByAppends()
    ensures RuleOrder == [] + [RimRange] + [SpokeCountRange] + [CrossPatternRange] + [HubRange] + [HubBelowRim]
  {
  }

  /**
   * The validator: starts from an empty list and appends the message of each
   * rule that fails, rule by rule.
   */
  method ValidateWheelSpecs(specs: WheelSpecs) returns (errors: seq<string>)
    ensures errors == Violations(specs)
  {
    errors := [];
    ghost var checked: seq<Rule> := [];
    ghost var before := errors;

    if specs.rimEffectiveDiameter <= 0.0 || specs.rimEffectiveDiameter > 1000.0 {
      errors := errors + [RimMessage];
    }
    ViolationsStep(checked, RimRange, checked + [RimRange], specs,
      specs.rimEffectiveDiameter <= 0.0 || specs.rimEffectiveDiameter > 1000.0, before, errors);
    checked, before := checked + [RimRange], errors;

    if specs.spokeCount < 8 || specs.spokeCount > 48 || specs.spokeCount % 4 != 0 {
      errors := errors + [SpokeCountMessage];
    }
    ViolationsStep(checked, SpokeCountRange, checked + [SpokeCountRange], specs,
      specs.spokeCount < 8 || specs.spokeCount > 48 || specs.spokeCount % 4 != 0, before, errors);
    checked, before := checked + [SpokeCountRange], errors;

    if specs.crossPattern < 0 || specs.crossPattern > 4 {
      errors := errors + [CrossPatternMessage];
    }
    ViolationsStep(checked, CrossPatternRange, checked + [CrossPatternRange], specs,
      specs.crossPattern < 0 || specs.crossPattern > 4, before, errors);
    checked, before := checked + [CrossPatternRange], errors;

    if specs.hubFlangeDiameter <= 0.0 || specs.hubFlangeDiameter > 200.0 {
      errors := errors + [HubRangeMessage];
    }
    ViolationsStep(checked, HubRange, checked + [HubRange], specs,
      specs.hubFlangeDiameter <= 0.0 || specs.hubFlangeDiameter > 200.0, before, errors);
    checked, before := checked + [HubRange], errors;

    if specs.hubFlangeDiameter >= specs.rimEffectiveDiameter {
      errors := errors + [HubBelowRimMessage];
    }
    ViolationsStep(checked, HubBelowRim, checked + [HubBelowRim], specs,
      specs.hubFlangeDiameter >= specs.rimEffectiveDiameter, before, errors);
    RuleOrderByAppends();
  }

  // ---------------------------------------------------------------------------
  // Properties of the validator
  // ---------------------------------------------------------------------------

  /** A rule is reported exactly when it is one of the rules checked and it fails. */
  lemma {:induction false} FailedRulesMember(rules: seq<Rule>, s: WheelSpecs, r: Rule)
    ensures r in FailedRules(rules, s) <==> r in rules && Fails(r, s)
  {
    if rules != [] {
      var init := rules[..|rules| - 1];
      FailedRulesMember(init, s, r);
      assert rules == init + [rules[|rules| - 1]];
    }
  }

  /** Filtering keeps the rules in the order they were checked. */
  lemma {:induction false} FailedRulesOrdered(rules: seq<Rule>, s: WheelSpecs)
    requires Ordered(rules)
    ensures Ordered(FailedRules(rules, s))
  {
    if rules != [] {
      var init, last := rules[..|rules| - 1], rules[|rules| - 1];
      FailedRulesOrdered(init, s);
      var f := FailedRules(init, s);
      forall i | 0 <= i < |f|
        ensures Rank(f[i]) < Rank(last)
      {
        FailedRulesMember(init, s, f[i]);
        var k :| 0 <= k < |init| && init[k] == f[i];
        assert rules[k] == f[i];
      }
    }
  }

  /** The five messages are pairwise different (they even differ in length). */
  lemma MessageInjective(p: Rule, q: Rule)
    ensures Message(p) == Message(q) <==> p == q
  {
  }

  /** A message is in the list exactly when one of the listed rules has it. */
  lemma MessagesMember(rules: seq<Rule>, r: Rule)
    ensures Message(r) in Messages(rules) <==> r in rules
  {
    var m := Messages(rules);
    if Message(r) in m {
      var i :| 0 <= i < |m| && m[i] == Message(r);
      MessageInjective(rules[i], r);
    }
    if r in rules {
      var i :| 0 <= i < |rules| && rules[i] == r;
      assert m[i] == Message(r);
    }
  }

  /** Each rule contributes its own message exactly when that rule fails. */
  lemma ValidatorReportsFailure(s: WheelSpecs, r: Rule)
    ensures Message(r) in Violations(s) <==> Fails(r, s)
  {
    MessagesMember(FailedRules(RuleOrder, s), r);
    FailedRulesMember(RuleOrder, s, r);
    assert r in RuleOrder by { assert RuleOrder[Rank(r)] == r; }
  }

  /** The validator returns no message exactly when all five invariants hold. */
  lemma ValidatorAcceptsExactlyValid(s: WheelSpecs)
    ensures Violations(s) == [] <==> Valid(s)
  {
    ValidatorReportsFailure(s, RimRange);
    ValidatorReportsFailure(s, SpokeCountRange);
    ValidatorReportsFailure(s, CrossPatternRange);
    ValidatorReportsFailure(s, HubRange);
    ValidatorReportsFailure(s, HubBelowRim);
    if Violations(s) != [] {
      var f := FailedRules(RuleOrder, s);
      FailedRulesMember(RuleOrder, s, f[0]);
    }
  }

  /**
   * The messages come in rule order (rim, spoke count, cross pattern, hub
   * range, hub below rim), none twice, so there are at most five.
   */
  lemma ValidatorOrder(s: WheelSpecs)
    ensures |Violations(s)| <= 5
    ensures forall i, j | 0 <= i < j < |Violations(s)| :: Violations(s)[i] != Violations(s)[j]
    ensures forall i, j, p, q |
              0 <= i < |Violations(s)| && 0 <= j < |Violations(s)| &&
              Violations(s)[i] == Message(p) && Violations(s)[j] == Message(q) && Rank(p) < Rank(q)
              :: i < j
  {
    var f := FailedRules(RuleOrder, s);
    var v := Violations(s);
    FailedRulesOrdered(RuleOrder, s);
    forall i, j | 0 <= i < j < |v|
      ensures v[i] != v[j]
    {
      MessageInjective(f[i], f[j]);
    }
    forall i, j, p, q |
      0 <= i < |v| && 0 <= j < |v| && v[i] == Message(p) && v[j] == Message(q) && Rank(p) < Rank(q)
      ensures i < j
    {
      MessageInjective(f[i], p);
      MessageInjective(f[j], q);
    }
  }

  /**
   * The two hub rules are checked independently: a flange that is both over
   * 200mm and not smaller than the rim draws both messages, range first.
   */
  lemma HubRulesIndependent(s: WheelSpecs)
    requires s.hubFlangeDiameter > 200.0 && s.hubFlangeDiameter >= s.rimEffectiveDiameter
    ensures exists i, j :: 0 <= i < j < |Violations(s)| &&
              Violations(s)[i] == HubRangeMessage && Violations(s)[j] == HubBelowRimMessage
  {
    var v := Violations(s);
    ValidatorReportsFailure(s, HubRange);
    ValidatorReportsFailure(s, HubBelowRim);
    ValidatorOrder(s);
    var i :| 0 <= i < |v| && v[i] == Message(HubRange);
    var j :| 0 <= j < |v| && v[j] == Message(HubBelowRim);
    assert i < j;
  }

  /** The message list of a single rule: its message if it fails, nothing otherwise. */
  function Report(r: Rule, s: WheelSpecs): seq<string>
  {
    if Fails(r, s) then [Message(r)] else []
  }

  /** The specification unrolled over the five rules. */
  lemma ViolationsByRule(s: WheelSpecs)
    ensures Violations(s) == Report(RimRange, s) + Report(SpokeCountRange, s)
      + Report(CrossPatternRange, s) + Report(HubRange, s) + Report(HubBelowRim, s)
  {
    var e1 := Report(RimRange, s);
    var e2 := e1 + Report(SpokeCountRange, s);
    var e3 := e2 + Report(CrossPatternRange, s);
    var e4 := e3 + Report(HubRange, s);
    var e5 := e4 + Report(HubBelowRim, s);
    var p1 := [] + [RimRange];
    var p2 := p1 + [SpokeCountRange];
    var p3 := p2 + [CrossPatternRange];
    var p4 := p3 + [HubRange];
    ViolationsStep([], RimRange, p1, s, Fails(RimRange, s), [], e1);
    ViolationsStep(p1, SpokeCountRange, p2, s, Fails(SpokeCountRange, s), e1, e2);
    ViolationsStep(p2, CrossPatternRange, p3, s, Fails(CrossPatternRange, s), e2, e3);
    ViolationsStep(p3, HubRange, p4, s, Fails(HubRange, s), e3, e4);
    RuleOrderByAppends();
    ViolationsStep(p4, HubBelowRim, RuleOrder, s, Fails(HubBelowRim, s), e4, e5);
  }

  /** The reference 700C build (622mm rim, 32 spokes, 3-cross, 60mm flange) passes. */
  lemma ReferenceWheelPasses()
    ensures Violations(WheelSpecs(622.0, 32, 3, 60.0)) == []
  {
    ValidatorAcceptsExactlyValid(WheelSpecs(622.0, 32, 3, 60.0));
  }

  /** A 700mm flange on a 622mm rim fails both hub rules and nothing else. */
  lemma OversizedFlangeMessages()
    ensures Violations(WheelSpecs(622.0, 32, 3, 700.0)) == [HubRangeMessage, HubBelowRimMessage]
  {
    ViolationsByRule(WheelSpecs(622.0, 32, 3, 700.0));
  }

  /** A negative rim diameter also makes the flange not smaller than the rim. */
  lemma NegativeRimMessages()
    ensures Violations(WheelSpecs(-100.0, 32, 3, 60.0)) == [RimMessage, HubBelowRimMessage]
  {
    ViolationsByRule(WheelSpecs(-100.0, 32, 3, 60.0));
  }

  /** A specification that breaks every rule draws all five messages, in order. */
  lemma AllRulesBrokenMessages()
    ensures Violations(WheelSpecs(-100.0, 15, 5, 700.0))
         == [RimMessage, SpokeCountMessage, CrossPatternMessage, HubRangeMessage, HubBelowRimMessage]
  {
    ViolationsByRule(WheelSpecs(-100.0, 15, 5, 700.0));
  }

  // ---------------------------------------------------------------------------
  // Spoke length
  // ---------------------------------------------------------------------------

  /**
   * The platform's mathematical primitives the formula relies on: the constant
   * pi and the cosine, sine and square root functions. They are parameters of
   * the model; the lemmas below say which of their textbook properties they use.
   */
  datatype Primitives = Primitives(pi: real, cos: real -> real, sin: real -> real, sqrt: real -> real)

  /** x^2, the building block of the length formula. */
  function Square(x: real): real
  {
    x * x
  }

  /**
   * `sqrt` behaves as the square root on non-negative reals: it is strictly
   * increasing and undoes squaring.
   */
  ghost predicate SquareRoot(m: Primitives)
  {
    && (forall x: real, y: real | 0.0 <= x < y :: m.sqrt(x) < m.sqrt(y))
    && (forall x: real | 0.0 <= x :: m.sqrt(Square(x)) == x)
  }

  /** The cosine never exceeds 1. */
  ghost predicate CosineAtMostOne(m: Primitives)
  {
    forall x: real :: m.cos(x) <= 1.0
  }

  /** cos 0 = 1 and sin 0 = 0. */
  predicate ExactAtZero(m: Primitives)
  {
    m.cos(0.0) == 1.0 && m.sin(0.0) == 0.0
  }

  function RimRadius(s: WheelSpecs): real
  {
    s.rimEffectiveDiameter / 2.0
  }

  function HubFlangeRadius(s: WheelSpecs): real
  {
    s.hubFlangeDiameter / 2.0
  }

  /** Distance from the flange circle to the rim circle: r - h. */
  function RadialGap(s: WheelSpecs): real
  {
    RimRadius(s) - HubFlangeRadius(s)
  }

  /** Angular offset, in degrees, between a spoke's hub hole and its rim hole. */
  function CrossAngleDegrees(s: WheelSpecs): real
    requires s.spokeCount != 0
  {
    (s.crossPattern * 360) as real / s.spokeCount as real
  }

  function CrossAngleRadians(s: WheelSpecs, m: Primitives): real
    requires s.spokeCount != 0
  {
    CrossAngleDegrees(s) * m.pi / 180.0
  }

  /** First leg of the formula: a = r - h cos(angle). */
  function LegA(s: WheelSpecs, m: Primitives): real
    requires s.spokeCount != 0
  {
    RimRadius(s) - HubFlangeRadius(s) * m.cos(CrossAngleRadians(s, m))
  }

  /** Second leg of the formula: b = h sin(angle). */
  function LegB(s: WheelSpecs, m: Primitives): real
    requires s.spokeCount != 0
  {
    HubFlangeRadius(s) * m.sin(CrossAngleRadians(s, m))
  }

  function Abs(x: real): real
  {
    if x < 0.0 then -x else x
  }

  /**
   * The spoke length formula before rounding: sqrt(a^2 + b^2), the hypotenuse
   * over the two legs, so with a true square root no shorter than either leg.
   */
  function UnroundedSpokeLength(s: WheelSpecs, m: Primitives): (len: real)
    requires s.spokeCount != 0
    ensures SquareRoot(m) ==> len >= Abs(LegA(s, m)) && len >= Abs(LegB(s, m))
  {
    SqrtAtLeastLegs(m, LegA(s, m), LegB(s, m));
    m.sqrt(Square(LegA(s, m)) + Square(LegB(s, m)))
  }

  /** Rounding to the nearest integer, halves rounded up (towards positive infinity). */
  function RoundHalfUp(x: real): (n: int)
    ensures x - 0.5 < n as real <= x + 0.5
  {
    (x + 0.5).Floor
  }

  /** Rounding to one decimal place: the nearest multiple of 0.1, halves up. */
  function RoundToTenth(x: real): (r: real)
    ensures x - 0.05 < r <= x + 0.05
    ensures (r * 10.0).Floor as real == r * 10.0
  {
    RoundHalfUp(x * 10.0) as real / 10.0
  }

  /**
   * Validates the specification and, only when it passes, applies the length
   * formula rounded to one decimal place.
   */
  function CalculateSpokeLength(s: WheelSpecs, m: Primitives): (r: CalculationResult)
    ensures r.errors == Violations(s)
    ensures r.isValid <==> Valid(s)
    ensures r.isValid <==> r.errors == []
    ensures !r.isValid ==> r.spokeLength == 0.0
    ensures r.isValid ==> s.spokeCount != 0 && r.spokeLength == RoundToTenth(UnroundedSpokeLength(s, m))
  {
    var errors := Violations(s);
    ValidatorAcceptsExactlyValid(s);
    if |errors| > 0 then
      CalculationResult(0.0, false, errors)
    else
      CalculationResult(RoundToTenth(UnroundedSpokeLength(s, m)), true, [])
  }

  // ---------------------------------------------------------------------------
  // Properties of the spoke length
  // ---------------------------------------------------------------------------

  /**
   * On a specification that passes validation the formula's inputs are
   * well-formed: a positive hub radius below the rim radius, at least 8 spokes
   * to divide by, and a cross angle between 0 and 180 degrees.
   */
  lemma ValidInputsWellFormed(s: WheelSpecs)
    requires Violations(s) == []
    ensures 0.0 < HubFlangeRadius(s) < RimRadius(s) <= 500.0
    ensures s.spokeCount >= 8
    ensures 0.0 <= CrossAngleDegrees(s) <= 180.0
  {
    ValidatorAcceptsExactlyValid(s);
    var n := s.spokeCount as real;
    var c := s.crossPattern as real;
    assert (s.crossPattern * 360) as real == c * 360.0;
    assert c * 360.0 <= 180.0 * n by {
      assert c <= 4.0 && 8.0 <= n;
    }
    assert CrossAngleDegrees(s) == c * 360.0 / n;
  }

  /** Leg a = r - h cos(angle) is at least r - h when the cosine is at most 1. */
  lemma RadialLegBound(s: WheelSpecs, m: Primitives)
    requires Valid(s) && CosineAtMostOne(m)
    ensures LegA(s, m) >= RadialGap(s) > 0.0
  {
  }

  /** Squaring is strictly increasing on non-negative reals. */
  lemma SquareIncreasing(x: real, y: real)
    requires 0.0 <= x < y
    ensures Square(x) < Square(y)
  {
    var d := y - x;
    assert y * y == x * x + 2.0 * x * d + d * d;
    assert 0.0 <= x * d;
    assert 0.0 < d * d;
  }

  /** With a true square root, sqrt(a^2 + b^2) is at least |a| and at least |b|. */
  lemma SqrtAtLeastLegs(m: Primitives, a: real, b: real)
    ensures SquareRoot(m) ==> m.sqrt(Square(a) + Square(b)) >= Abs(a)
    ensures SquareRoot(m) ==> m.sqrt(Square(a) + Square(b)) >= Abs(b)
  {
    if SquareRoot(m) {
      assert Square(Abs(a)) == Square(a) && 0.0 <= Square(a);
      assert Square(Abs(b)) == Square(b) && 0.0 <= Square(b);
    }
  }

  /** With cross pattern 0 the angle is 0, so a = r - h and b = 0. */
  lemma RadialLegs(s: WheelSpecs, m: Primitives)
    requires Valid(s) && s.crossPattern == 0 && ExactAtZero(m)
    ensures UnroundedSpokeLength(s, m) == m.sqrt(Square(RadialGap(s)))
  {
    assert CrossAngleRadians(s, m) == 0.0;
    assert LegA(s, m) == RadialGap(s);
    assert LegB(s, m) == 0.0;
  }

  /**
   * Radial lacing (cross pattern 0): the spoke runs straight from flange to
   * rim, so its length is the rim radius minus the flange radius.
   */
  lemma RadialSpokeLength(s: WheelSpecs, m: Primitives)
    requires Valid(s) && s.crossPattern == 0
    requires ExactAtZero(m) && SquareRoot(m)
    ensures UnroundedSpokeLength(s, m) == RadialGap(s)
  {
    RadialLegs(s, m);
  }

  /**
   * Among valid cross patterns for the same rim, spoke count and flange, the
   * radial one gives the shortest spoke.
   */
  lemma RadialIsShortest(s: WheelSpecs, m: Primitives)
    requires Valid(s)
    requires ExactAtZero(m) && CosineAtMostOne(m) && SquareRoot(m)
    ensures UnroundedSpokeLength(s.(crossPattern := 0), m) <= UnroundedSpokeLength(s, m)
    ensures CalculateSpokeLength(s.(crossPattern := 0), m).spokeLength
         <= CalculateSpokeLength(s, m).spokeLength
  {
    var radial := s.(crossPattern := 0);
    RadialSpokeLength(radial, m);
    RadialLegBound(s, m);
    ValidatorAcceptsExactlyValid(s);
    ValidatorAcceptsExactlyValid(radial);
    RoundToTenthMonotonic(UnroundedSpokeLength(radial, m), UnroundedSpokeLength(s, m));
  }

  /**
   * A larger rim, all else equal, needs a strictly longer spoke; after
   * rounding to one decimal place, a spoke no shorter.
   */
  lemma LargerRimLongerSpoke(s: WheelSpecs, m: Primitives, rim: real)
    requires Valid(s) && Valid(s.(rimEffectiveDiameter := rim)) && s.rimEffectiveDiameter < rim
    requires CosineAtMostOne(m) && SquareRoot(m)
    ensures UnroundedSpokeLength(s, m) < UnroundedSpokeLength(s.(rimEffectiveDiameter := rim), m)
    ensures CalculateSpokeLength(s, m).spokeLength
         <= CalculateSpokeLength(s.(rimEffectiveDiameter := rim), m).spokeLength
  {
    var big := s.(rimEffectiveDiameter := rim);
    var a1, a2, b := LegA(s, m), LegA(big, m), LegB(s, m);
    assert CrossAngleRadians(big, m) == CrossAngleRadians(s, m);
    assert LegB(big, m) == b;
    RadialLegBound(s, m);
    assert 0.0 < a1 < a2;
    SquareIncreasing(a1, a2);
    assert 0.0 <= Square(a1) + Square(b) < Square(a2) + Square(b);
    RoundToTenthMonotonic(UnroundedSpokeLength(s, m), UnroundedSpokeLength(big, m));
  }

  /** Rounding to one decimal place never reverses an order. */
  lemma RoundToTenthMonotonic(x: real, y: real)
    requires x <= y
    ensures RoundToTenth(x) <= RoundToTenth(y)
  {
    assert x * 10.0 + 0.5 <= y * 10.0 + 0.5;
    assert RoundHalfUp(x * 10.0) <= RoundHalfUp(y * 10.0);
  }

  /**
   * The radial 700C build (622mm rim, 32 spokes, 0-cross, 60mm flange) passes
   * and needs a 281mm spoke: 311mm rim radius less 30mm flange radius.
   */
  lemma RadialReferenceWheel(m: Primitives)
    requires ExactAtZero(m) && SquareRoot(m)
    ensures CalculateSpokeLength(WheelSpecs(622.0, 32, 0, 60.0), m)
         == CalculationResult(281.0, true, [])
  {
  }

  /** An invalid build yields length 0, no validity, and all its violations. */
  lemma InvalidBuildResult(m: Primitives)
    ensures CalculateSpokeLength(WheelSpecs(-100.0, 15, 5, 700.0), m)
         == CalculationResult(0.0, false,
              [RimMessage, SpokeCountMessage, CrossPatternMessage, HubRangeMessage, HubBelowRimMessage])
  {
    AllRulesBrokenMessages();
  }

  // ---------------------------------------------------------------------------
  // Common wheel sizes
  // ---------------------------------------------------------------------------

  /** `sub` occurs in `s` starting at position `i`. */
  predicate OccursAt(s: string, sub: string, i: int)
  {
    0 <= i <= |s| - |sub| && s[i..i + |sub|] == sub
  }

  /** `sub` occurs in `s` as a contiguous substring. */
  ghost predicate Contains(s: string, sub: string)
  {
    exists i :: OccursAt(s, sub, i)
  }

  /** The common wheel sizes, in display order, with their rim diameters in mm. */
  function CommonWheelSizes(): (sizes: seq<WheelSize>)
    ensures |sizes| == 6
    ensures forall i | 0 <= i < |sizes| :: 0.0 < sizes[i].diameter <= 1000.0
    ensures forall i, j | 0 <= i < j < |sizes| :: sizes[i].name != sizes[j].name
  {
    [ WheelSize("700C (622mm)", 622.0),
      WheelSize("26\" (559mm)", 559.0),
      WheelSize("27.5\" (584mm)", 584.0),
      WheelSize("29\" (622mm)", 622.0),
      WheelSize("20\" (406mm)", 406.0),
      WheelSize("24\" (507mm)", 507.0) ]
  }

  /**
   * The first size is 700C at 622mm; 26" and 29" sizes are listed; 700C and
   * 29" are separate entries that share the 622mm diameter.
   */
  lemma CommonWheelSizesListed()
    ensures Contains(CommonWheelSizes()[0].name, "700C") && CommonWheelSizes()[0].diameter == 622.0
    ensures Contains(CommonWheelSizes()[1].name, "26\"")
    ensures Contains(CommonWheelSizes()[3].name, "29\"") && CommonWheelSizes()[3].diameter == 622.0
  {
    var sizes := CommonWheelSizes();
    assert OccursAt(sizes[0].name, "700C", 0);
    assert OccursAt(sizes[1].name, "26\"", 0);
    assert OccursAt(sizes[3].name, "29\"", 0);
  }

  /** Every common size, with the reference 32-spoke 3-cross 60mm-flange hub, passes validation. */
  lemma CommonWheelSizesValid(i: nat)
    requires i < |CommonWheelSizes()|
    ensures Violations(WheelSpecs(CommonWheelSizes()[i].diameter, 32, 3, 60.0)) == []
  {
    var d := CommonWheelSizes()[i].diameter;
    assert d >= 406.0;
    ValidatorAcceptsExactlyValid(WheelSpecs(d, 32, 3, 60.0));
  }
}
