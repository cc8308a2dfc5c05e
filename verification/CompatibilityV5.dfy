/** The protocol-v5 determinism profile: its validity, which demands a frame rate
    in lowest terms, and the comparison of two profiles. */
module CompatibilityV5 {
  import opened Prelude

  // Greatest common divisor

  function Gcd(left: nat, right: nat): nat
    decreases right
  {
    if right == 0 then left else Gcd(right, left % right)
  }

  method GreatestCommonDivisor(left: nat, right: nat) returns (g: nat)
    ensures g == Gcd(left, right)
  {
    var a, b := left, right;
    while b != 0
      invariant Gcd(a, b) == Gcd(left, right)
      decreases b
    {
      var remainder := a % b;
      a := b;
      b := remainder;
    }
    g := a;
  }

  /** Multiplying by a positive number keeps the sign and does not shrink. */
  lemma Product(a: nat, k: int)
    requires a > 0
    ensures k > 0 ==> a * k >= a
    ensures k <= 0 ==> a * k <= 0
  {
  }

  lemma {:induction false} MultipleHasNoRemainder(k: nat, q: int)
    requires k > 0
    ensures (k * q) % k == 0
  {
    var r, d := (k * q) % k, (k * q) / k;
    assert k * q == k * d + r;
    assert k * (q - d) == r;
    Product(k, q - d);
  }

  /** The loop's result is a combination of its arguments. */
  lemma {:induction false} Bezout(left: nat, right: nat) returns (x: int, y: int)
    ensures left * x + right * y == Gcd(left, right)
    decreases right
  {
    if right == 0 {
      x, y := 1, 0;
    } else {
      var x', y' := Bezout(right, left % right);
      x, y := y', x' - (left / right) * y';
      Regroup(left, right, left / right, x', y');
    }
  }

  lemma Regroup(left: int, right: int, q: int, x: int, y: int)
    ensures left * y + right * (x - q * y) == right * x + (left - right * q) * y
  {
    assert right * (x - q * y) == right * x - right * (q * y);
    assert (left - right * q) * y == left * y - (right * q) * y;
    assert right * (q * y) == (right * q) * y;
  }

  lemma {:induction false} GcdDividesBoth(left: nat, right: nat) returns (p: nat, q: nat)
    ensures left == Gcd(left, right) * p && right == Gcd(left, right) * q
    decreases right
  {
    if right == 0 {
      p, q := 1, 0;
    } else {
      var p', q' := GcdDividesBoth(right, left % right);
      p, q := (left / right) * p' + q', p';
      Recombine(left, right, left / right, left % right, Gcd(left, right), p', q');
    }
  }

  lemma Recombine(left: int, right: int, d: int, r: int, g: int, a: int, b: int)
    requires left == right * d + r && right == g * a && r == g * b
    ensures left == g * (d * a + b)
  {
    Factor(g, a, b, d, 1);
  }

  lemma Factor(k: int, a: int, b: int, x: int, y: int)
    ensures (k * a) * x + (k * b) * y == k * (a * x + b * y)
  {
    assert (k * a) * x == k * (a * x);
    assert (k * b) * y == k * (b * y);
  }

  lemma CommonDivisorDividesGcd(k: nat, a: nat, b: nat)
    requires k > 0
    ensures Gcd(k * a, k * b) % k == 0
  {
    var x, y := Bezout(k * a, k * b);
    Factor(k, a, b, x, y);
    MultipleHasNoRemainder(k, a * x + b * y);
  }

  lemma GcdIsPositive(left: nat, right: nat)
    requires left > 0
    ensures Gcd(left, right) > 0
  {
    var p, q := GcdDividesBoth(left, right);
  }

  lemma GcdDivides(left: nat, right: nat)
    requires left > 0
    ensures Gcd(left, right) > 0
    ensures left % Gcd(left, right) == 0 && right % Gcd(left, right) == 0
  {
    GcdIsPositive(left, right);
    var p, q := GcdDividesBoth(left, right);
    MultipleHasNoRemainder(Gcd(left, right), p);
    MultipleHasNoRemainder(Gcd(left, right), q);
  }

  lemma ExactQuotient(n: nat, k: nat) returns (q: nat)
    requires k > 0 && n % k == 0
    ensures n == k * q
  {
    q := n / k;
  }

  /** Euclid's loop computes the greatest common divisor: it divides both numbers and every common
      divisor divides it. */
  lemma GcdIsGreatest(left: nat, right: nat, k: nat)
    requires left > 0 && k > 0
    ensures Gcd(left, right) > 0
    ensures left % Gcd(left, right) == 0 && right % Gcd(left, right) == 0
    ensures left % k == 0 && right % k == 0 ==> Gcd(left, right) % k == 0
  {
    GcdDivides(left, right);
    if left % k == 0 && right % k == 0 {
      var a := ExactQuotient(left, k);
      var b := ExactQuotient(right, k);
      CommonDivisorDividesGcd(k, a, b);
    }
  }

  /** In lowest terms, a numerator that cross-multiplies is a multiple of the other. */
  lemma NumeratorsDivide(n1: nat, d1: nat, n2: nat, d2: nat) returns (k: int)
    requires Gcd(n1, d1) == 1 && n1 * d2 == n2 * d1
    ensures n2 == n1 * k
  {
    var x, y := Bezout(n1, d1);
    k := n2 * x + d2 * y;
    Factor(n2, n1, d1, x, y);
    Factor(n1, n2, d2, x, y);
    assert n2 * n1 == n1 * n2;
  }

  lemma MutualMultiples(a: nat, b: nat, j: int, k: int)
    requires a > 0 && b > 0 && b == a * k && a == b * j
    ensures a == b
  {
    Product(a, k);
    Product(b, j);
  }

  lemma CancelFactor(n: nat, a: nat, b: nat)
    requires n > 0 && n * a == n * b
    ensures a == b
  {
    assert n * (a - b) == 0;
    Product(n, a - b);
    Product(n, b - a);
  }

  /** Two positive rates in lowest terms are the same fraction exactly when they are the same number. */
  lemma LowestTermsAreUnique(n1: nat, d1: nat, n2: nat, d2: nat)
    requires n1 > 0 && d1 > 0 && n2 > 0 && d2 > 0
    requires Gcd(n1, d1) == 1 && Gcd(n2, d2) == 1
    ensures n1 * d2 == n2 * d1 <==> n1 == n2 && d1 == d2
  {
    if n1 * d2 == n2 * d1 {
      var k := NumeratorsDivide(n1, d1, n2, d2);
      var j := NumeratorsDivide(n2, d2, n1, d1);
      MutualMultiples(n1, n2, j, k);
      CancelFactor(n1, d1, d2);
    }
  }

  // Profiles

  const V5_RETROPAD_INPUT_BYTES: nat := 10

  datatype DigestMode = Authoritative | Diagnostic | Disabled

  datatype Profile = Profile(
    netplayCoreCompatibilityId: string,
    localArtifactId: string,
    platformClass: string,
    coreOptionsDigest: string,
    controllerProfileIds: seq<string>,
    inputCodecId: string,
    inputPayloadSize: nat,
    predictorId: string,
    frameRateNumerator: nat,
    frameRateDenominator: nat,
    romSizeBytes: nat,
    contentTransformationDigest: Option<string>,
    startupStatePolicyId: string,
    replayOutputSuppressed: bool,
    digestMode: DigestMode,
    digestAlgorithmId: Option<string>)

  datatype Mismatch =
    | ProtocolVersion | System | Core | StateFormat | Content | Settings | Cheats | SystemData | SaveDataMode
    | DeterminismProfileMissing | NetplayCoreCompatibility | PlatformClass | CoreOptions | ControllerProfile
    | InputContract | NominalFrameRate | RomSize | ContentTransformation | StartupStatePolicy
    | ReplayOutputSuppression | DigestContract

  /** The frozen identifiers, and the wire-text rule for the free ones. */
  datatype Rules = Rules(inputCodecId: string, inputPredictorId: string, isId: string -> bool)

  predicate DigestContractIsValid(p: Profile, rules: Rules) {
    if p.digestMode == Disabled then p.digestAlgorithmId.None?
    else p.digestAlgorithmId.Some? && rules.isId(p.digestAlgorithmId.value)
  }

  predicate IsValid(p: Profile, rules: Rules) {
    && rules.isId(p.netplayCoreCompatibilityId)
    && rules.isId(p.localArtifactId)
    && rules.isId(p.platformClass)
    && IsSha256(p.coreOptionsDigest)
    && 0 < |p.controllerProfileIds| <= 8
    && (forall i :: 0 <= i < |p.controllerProfileIds| ==> rules.isId(p.controllerProfileIds[i]))
    && p.inputCodecId == rules.inputCodecId
    && p.inputPayloadSize == V5_RETROPAD_INPUT_BYTES
    && p.predictorId == rules.inputPredictorId
    && p.frameRateNumerator > 0
    && p.frameRateDenominator > 0
    && Gcd(p.frameRateNumerator, p.frameRateDenominator) == 1
    && p.romSizeBytes > 0
    && (p.contentTransformationDigest.Some? ==> IsSha256(p.contentTransformationDigest.value))
    && rules.isId(p.startupStatePolicyId)
    && p.replayOutputSuppressed
    && DigestContractIsValid(p, rules)
  }

  predicate DigestMatches(left: string, right: string) {
    Lower(left) == Lower(right)
  }

  predicate OptionalDigestMatches(left: Option<string>, right: Option<string>) {
    match (left, right)
    case (Some(l), Some(r)) => DigestMatches(l, r)
    case (None, None) => true
    case _ => false
  }

  function FirstMismatch(p: Profile, other: Profile): Option<Mismatch> {
    if p.netplayCoreCompatibilityId != other.netplayCoreCompatibilityId then Some(NetplayCoreCompatibility)
    else if p.platformClass != other.platformClass then Some(PlatformClass)
    else if !DigestMatches(p.coreOptionsDigest, other.coreOptionsDigest) then Some(CoreOptions)
    else if p.controllerProfileIds != other.controllerProfileIds then Some(ControllerProfile)
    else if || p.inputCodecId != other.inputCodecId
            || p.inputPayloadSize != other.inputPayloadSize
            || p.predictorId != other.predictorId then Some(InputContract)
    else if || p.frameRateNumerator != other.frameRateNumerator
            || p.frameRateDenominator != other.frameRateDenominator then Some(NominalFrameRate)
    else if p.romSizeBytes != other.romSizeBytes then Some(RomSize)
    else if !OptionalDigestMatches(p.contentTransformationDigest, other.contentTransformationDigest)
      then Some(ContentTransformation)
    else if p.startupStatePolicyId != other.startupStatePolicyId then Some(StartupStatePolicy)
    else if p.replayOutputSuppressed != other.replayOutputSuppressed then Some(ReplayOutputSuppression)
    else if p.digestMode != other.digestMode || p.digestAlgorithmId != other.digestAlgorithmId then Some(DigestContract)
    else None
  }

  /** The order in which reasons are looked for. */
  function Rank(m: Mismatch): nat {
    match m
    case ProtocolVersion => 0
    case System => 1
    case Core => 2
    case StateFormat => 3
    case Content => 4
    case Settings => 5
    case Cheats => 6
    case SystemData => 7
    case SaveDataMode => 8
    case DeterminismProfileMissing => 9
    case NetplayCoreCompatibility => 10
    case PlatformClass => 11
    case CoreOptions => 12
    case ControllerProfile => 13
    case InputContract => 14
    case NominalFrameRate => 15
    case RomSize => 16
    case ContentTransformation => 17
    case StartupStatePolicy => 18
    case ReplayOutputSuppression => 19
    case DigestContract => 20
  }

  /** The profiles differ in what the reason names; digests are compared without regard to case. */
  predicate Differs(m: Mismatch, p: Profile, other: Profile) {
    match m
    case NetplayCoreCompatibility => p.netplayCoreCompatibilityId != other.netplayCoreCompatibilityId
    case PlatformClass => p.platformClass != other.platformClass
    case CoreOptions => Lower(p.coreOptionsDigest) != Lower(other.coreOptionsDigest)
    case ControllerProfile => p.controllerProfileIds != other.controllerProfileIds
    case InputContract =>
      !(p.inputCodecId == other.inputCodecId && p.inputPayloadSize == other.inputPayloadSize
        && p.predictorId == other.predictorId)
    case NominalFrameRate =>
      !(p.frameRateNumerator == other.frameRateNumerator && p.frameRateDenominator == other.frameRateDenominator)
    case RomSize => p.romSizeBytes != other.romSizeBytes
    case ContentTransformation =>
      var a, b := p.contentTransformationDigest, other.contentTransformationDigest;
      a.Some? != b.Some? || (a.Some? && b.Some? && Lower(a.value) != Lower(b.value))
    case StartupStatePolicy => p.startupStatePolicyId != other.startupStatePolicyId
    case ReplayOutputSuppression => p.replayOutputSuppressed != other.replayOutputSuppressed
    case DigestContract => !(p.digestMode == other.digestMode && p.digestAlgorithmId == other.digestAlgorithmId)
    case _ => false
  }

  /** The reported reason is the first that really holds, and none is reported exactly when none does. */
  lemma MismatchIsFirst(p: Profile, other: Profile, m: Mismatch)
    ensures FirstMismatch(p, other) == Some(m) <==>
              Differs(m, p, other) && forall n: Mismatch :: Rank(n) < Rank(m) ==> !Differs(n, p, other)
    ensures FirstMismatch(p, other).None? <==> forall n: Mismatch :: !Differs(n, p, other)
  {
    var first := FirstMismatch(p, other);
    if first.Some? {
      assert Differs(first.value, p, other);
      assert forall n: Mismatch :: Rank(n) < Rank(first.value) ==> !Differs(n, p, other);
      RanksDiffer(m, first.value);
    }
  }

  lemma RanksDiffer(m: Mismatch, n: Mismatch)
    ensures Rank(m) == Rank(n) ==> m == n
  {
  }

  /** The two profiles run at the same rate, compared as rational numbers. */
  predicate SameRate(p: Profile, other: Profile) {
    p.frameRateNumerator * other.frameRateDenominator == other.frameRateNumerator * p.frameRateDenominator
  }

  /** Valid profiles never disagree about the frame rate unless the rates really differ, and profiles
      that agree really run at one rate. */
  lemma RateMismatchIsReal(p: Profile, other: Profile, rules: Rules)
    requires IsValid(p, rules) && IsValid(other, rules)
    ensures SameRate(p, other) <==>
              p.frameRateNumerator == other.frameRateNumerator && p.frameRateDenominator == other.frameRateDenominator
    ensures FirstMismatch(p, other) == Some(NominalFrameRate) ==> !SameRate(p, other)
    ensures FirstMismatch(p, other).None? ==> SameRate(p, other)
  {
    LowestTermsAreUnique(p.frameRateNumerator, p.frameRateDenominator,
                         other.frameRateNumerator, other.frameRateDenominator);
  }
}
