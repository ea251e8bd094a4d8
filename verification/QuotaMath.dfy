/** Quota conversions: a price computed in floating point becomes an integer that stays in
    a fixed range and says when it had to be clamped. Floating-point numbers are reals
    with infinities and NaN. The product of two finite floats is a parameter, so that a
    result says what it asks of multiplication: order, a zero, or exactness.
 */
module QuotaMath {
  import opened Options

  datatype Float = Finite(v: real) | PosInf | NegInf | NaN

  datatype ClampKind = Overflow | Underflow | NotANumber

  /** An integer and, when the conversion had to give way, the reason. */
  datatype Checked = Checked(quota: int, clamp: Option<ClampKind>)

  const MAX_QUOTA: int := 0x7fff_ffff
  const MIN_QUOTA: int := -0x8000_0000
  const MAX_WALLET_QUOTA: int := 0x1f_ffff_ffff_ffff

  function Abs(x: real): real {
    if x >= 0.0 then x else -x
  }

  /** Conversion of a float to an integer: towards zero. */
  function Truncate(x: real): int {
    if x >= 0.0 then x.Floor else -((-x).Floor)
  }

  /** `math.Round`: to the nearest integer, halves away from zero. */
  function Round(x: real): int {
    if x >= 0.0 then (x + 0.5).Floor else -((-x + 0.5).Floor)
  }

  function RoundFloat(f: Float): Float {
    if f.Finite? then Finite(Round(f.v) as real) else f
  }

  function Saturate(f: Float, max: int, min: int): Checked {
    match f
    case NaN => Checked(0, Some(NotANumber))
    case PosInf => Checked(max, Some(Overflow))
    case NegInf => Checked(min, Some(Underflow))
    case Finite(v) =>
      if v > max as real then Checked(max, Some(Overflow))
      else if v < min as real then Checked(min, Some(Underflow))
      else Checked(Truncate(v), None)
  }

  function Strict(c: Checked): Option<int> {
    if c.clamp.Some? then None else Some(c.quota)
  }

  function QuotaFromFloatChecked(f: Float): Checked {
    Saturate(f, MAX_QUOTA, MIN_QUOTA)
  }

  function QuotaRoundChecked(f: Float): Checked {
    Saturate(RoundFloat(f), MAX_QUOTA, MIN_QUOTA)
  }

  function QuotaRound(f: Float): int {
    QuotaRoundChecked(f).quota
  }

  // ------------------------------------------------------------- conversions

  /** The nearest integer, and of two equally near the one farther from zero. */
  predicate Nearest(x: real, n: int) {
    Abs(x - n as real) <= 0.5 && (Abs(x - n as real) == 0.5 ==> Abs(n as real) > Abs(x))
  }

  lemma RoundNearest(x: real)
    ensures Nearest(x, Round(x))
  {
  }

  lemma RoundMonotone(x: real, y: real)
    requires x <= y
    ensures Round(x) <= Round(y)
  {
  }

  lemma RoundInteger(n: int)
    ensures Round(n as real) == n && Truncate(n as real) == n
  {
  }

  /** Conversion by truncation clamps exactly what is not a number or out of range, and is
      otherwise the integer part, less than one away and no larger in size. */
  lemma FromFloatExactly(f: Float)
    ensures var c := QuotaFromFloatChecked(f);
            && MIN_QUOTA <= c.quota <= MAX_QUOTA
            && (c.clamp.None? <==> f.Finite? && MIN_QUOTA as real <= f.v <= MAX_QUOTA as real)
            && (c.clamp.None? ==> Abs(f.v - c.quota as real) < 1.0 && Abs(c.quota as real) <= Abs(f.v))
            && (c.clamp == Some(Overflow) ==> c.quota == MAX_QUOTA)
            && (c.clamp == Some(Underflow) ==> c.quota == MIN_QUOTA)
            && (c.clamp == Some(NotANumber) <==> f.NaN?)
  {
  }

  /** Conversion by rounding clamps exactly when the rounded value is not a number or out of
      range; otherwise it is the nearest integer. */
  lemma RoundExactly(f: Float)
    ensures var c := QuotaRoundChecked(f);
            && MIN_QUOTA <= c.quota <= MAX_QUOTA
            && (c.clamp.None? <==> f.Finite? && MIN_QUOTA <= Round(f.v) <= MAX_QUOTA)
            && (c.clamp.None? ==> Nearest(f.v, c.quota))
            && (c.clamp == Some(NotANumber) <==> f.NaN?)
  {
    if f.Finite? {
      RoundNearest(f.v);
      RoundInteger(Round(f.v));
    }
  }

  /** Strict conversion fails exactly when the checked one clamps. */
  lemma StrictExactly(f: Float)
    ensures Strict(QuotaRoundChecked(f)).None? <==> !(f.Finite? && MIN_QUOTA <= Round(f.v) <= MAX_QUOTA)
    ensures Strict(QuotaRoundChecked(f)).Some? ==> Nearest(f.v, Strict(QuotaRoundChecked(f)).value)
    ensures Strict(QuotaFromFloatChecked(f)).None? <==> !(f.Finite? && MIN_QUOTA as real <= f.v <= MAX_QUOTA as real)
  {
    RoundExactly(f);
  }

  // ---------------------------------------------------------------- decimals

  /** A conversion of whole decimals to floats that is exact up to 2^53 and does not bring
      larger numbers below that. */
  ghost predicate Faithful(toFloat: int -> Float) {
    forall n :: var f := toFloat(n);
                if n > MAX_WALLET_QUOTA + 1 then f.PosInf? || (f.Finite? && f.v >= (MAX_WALLET_QUOTA + 1) as real)
                else if n < -MAX_WALLET_QUOTA - 1 then
                    f.NegInf? || (f.Finite? && f.v <= (-MAX_WALLET_QUOTA - 1) as real)
                else f == Finite(n as real)
  }

  function WalletQuotaFromDecimalStrict(toFloat: int -> Float, d: real): Option<int> {
    Strict(Saturate(toFloat(Round(d)), MAX_WALLET_QUOTA, -MAX_WALLET_QUOTA))
  }

  function QuotaFromDecimalChecked(toFloat: int -> Float, d: real): Checked {
    Saturate(toFloat(Round(d)), MAX_QUOTA, MIN_QUOTA)
  }

  /** The detour of a decimal through a float loses nothing: the result is the nearest
      integer when that is in range, and an error or a clamp when it is not. */
  lemma DecimalsExactly(toFloat: int -> Float, d: real)
    requires Faithful(toFloat)
    ensures WalletQuotaFromDecimalStrict(toFloat, d)
            == if -MAX_WALLET_QUOTA <= Round(d) <= MAX_WALLET_QUOTA then Some(Round(d)) else None
    ensures QuotaFromDecimalChecked(toFloat, d)
            == if Round(d) > MAX_QUOTA then Checked(MAX_QUOTA, Some(Overflow))
               else if Round(d) < MIN_QUOTA then Checked(MIN_QUOTA, Some(Underflow))
               else Checked(Round(d), None)
  {
    RoundInteger(Round(d));
    var f := toFloat(Round(d));
    assert -MAX_WALLET_QUOTA - 1 <= Round(d) <= MAX_WALLET_QUOTA + 1 ==> f == Finite(Round(d) as real);
  }

  // -------------------------------------------------------------- settlement

  /** The product of two finite floats, which may overflow. */
  type Multiplication = (real, real) -> Float

  function Times(mul: Multiplication, a: Float, b: Float): Float {
    if a.Finite? && b.Finite? then mul(a.v, b.v)
    else if a.NaN? || b.NaN? || a == Finite(0.0) || b == Finite(0.0) then NaN
    else if Negative(a) == Negative(b) then PosInf else NegInf
  }

  predicate Negative(a: Float) {
    a.NegInf? || (a.Finite? && a.v < 0.0)
  }

  /** The prompt tokens and the weighted completion tokens. */
  function Tokens(prompt: int, weighted: Float): int {
    QuotaRound(Finite(prompt as real + QuotaRound(weighted) as real))
  }

  /** The charge, at least one unless the model is free. */
  function Charge(scaled: Float, free: bool): int {
    if !free && QuotaRound(scaled) <= 0 then 1 else QuotaRound(scaled)
  }

  /** The ratio branch of the settlement of a channel test: three rounded stages. */
  function Settle(mul: Multiplication, prompt: int, completion: int, completionRatio: Float, modelRatio: Float): int {
    var tokens := Tokens(prompt, Times(mul, Finite(completion as real), completionRatio));
    Charge(Times(mul, Finite(tokens as real), modelRatio), modelRatio == Finite(0.0))
  }

  ghost predicate HasZero(mul: Multiplication) {
    forall a :: mul(a, 0.0) == Finite(0.0)
  }

  /** Whatever the tokens and ratios, even infinite ones, the charge fits in 32 bits, is
      never negative, and is zero exactly when the model ratio is. */
  lemma SettleInRange(mul: Multiplication, prompt: int, completion: int, completionRatio: Float, modelRatio: Float)
    requires HasZero(mul)
    ensures 0 <= Settle(mul, prompt, completion, completionRatio, modelRatio) <= MAX_QUOTA
    ensures Settle(mul, prompt, completion, completionRatio, modelRatio) == 0 <==> modelRatio == Finite(0.0)
  {
    var tokens := Tokens(prompt, Times(mul, Finite(completion as real), completionRatio));
    RoundExactly(Times(mul, Finite(tokens as real), modelRatio));
    RoundInteger(0);
  }

  // ------------------------------------------------------------- error bound

  predicate ExactAt(mul: Multiplication, a: real, b: real) {
    mul(a, b) == Finite(a * b)
  }

  ghost predicate Exact(mul: Multiplication) {
    forall a, b {:trigger ExactAt(mul, a, b)} :: ExactAt(mul, a, b)
  }

  ghost predicate NotNegative(mul: Multiplication, m: real) {
    forall a :: a >= 0.0 ==> mul(a, m).Finite? && mul(a, m).v >= 0.0
  }

  lemma ExactNotNegative(mul: Multiplication, m: real)
    requires Exact(mul) && m >= 0.0
    ensures NotNegative(mul, m)
  {
    forall a | a >= 0.0
      ensures mul(a, m).Finite? && mul(a, m).v >= 0.0
    {
      assert ExactAt(mul, a, m);
      Product(a, m);
    }
  }

  predicate Unclamped(f: Float) {
    QuotaRoundChecked(f).clamp.None?
  }

  lemma TokensWithin(prompt: nat, x: real)
    requires x >= 0.0 && Unclamped(Finite(x)) && Unclamped(Finite(prompt as real + QuotaRound(Finite(x)) as real))
    ensures Tokens(prompt, Finite(x)) >= 0
    ensures Abs(Tokens(prompt, Finite(x)) as real - (prompt as real + x)) <= 0.5
  {
    RoundExactly(Finite(x));
    var k := QuotaRound(Finite(x));
    RoundInteger(prompt + k);
    assert prompt as real + k as real == (prompt + k) as real;
  }

  /** A charge is within a half of its exact value, or it is the minimum charge. */
  predicate NearlyCharged(charge: int, exact: real) {
    Abs(charge as real - exact) <= 0.5 || (charge == 1 && 0.0 <= exact <= 0.5)
  }

  lemma ChargeWithin(y: real, free: bool)
    requires y >= 0.0 && Unclamped(Finite(y))
    ensures NearlyCharged(Charge(Finite(y), free), y)
  {
    RoundExactly(Finite(y));
  }

  /** No stage of the settlement is clamped. */
  predicate NoClamp(mul: Multiplication, prompt: int, completion: int, cr: real, mr: real) {
    var weighted := mul(completion as real, cr);
    && Unclamped(weighted)
    && Unclamped(Finite(prompt as real + QuotaRound(weighted) as real))
    && Unclamped(mul(Tokens(prompt, weighted) as real, mr))
  }

  /** The stages one by one, in terms of the two products that are computed. */
  lemma SettleStages(mul: Multiplication, prompt: nat, completion: nat, cr: real, mr: real)
    returns (tokens: nat)
    requires NoClamp(mul, prompt, completion, cr, mr)
    requires NotNegative(mul, cr) && NotNegative(mul, mr)
    ensures mul(completion as real, cr).Finite? && mul(tokens as real, mr).Finite?
    ensures Abs(tokens as real - (prompt as real + mul(completion as real, cr).v)) <= 0.5
    ensures NearlyCharged(Settle(mul, prompt, completion, Finite(cr), Finite(mr)), mul(tokens as real, mr).v)
  {
    var x := mul(completion as real, cr).v;
    TokensWithin(prompt, x);
    tokens := Tokens(prompt, Finite(x));
    ChargeWithin(mul(tokens as real, mr).v, mr == 0.0);
  }

  /** The rounding of the completion tokens is scaled by the model ratio; the last rounding
      adds a half, and the minimum charge at most a whole. `ExactPrice` writes the exact
      value out.
   */
  lemma SettleWithin(mul: Multiplication, prompt: nat, completion: nat, cr: real, mr: real)
    requires Exact(mul) && cr >= 0.0 && mr >= 0.0 && NoClamp(mul, prompt, completion, cr, mr)
    ensures NotNegative(mul, cr) && NotNegative(mul, mr)
    ensures var exact := mul(prompt as real + mul(completion as real, cr).v, mr).v;
            Abs(Settle(mul, prompt, completion, Finite(cr), Finite(mr)) as real - exact)
            <= if mr >= 1.0 then 0.5 * mr + 0.5 else 1.0
  {
    ExactNotNegative(mul, cr);
    ExactNotNegative(mul, mr);
    var tokens := SettleStages(mul, prompt, completion, cr, mr);
    var sum := prompt as real + mul(completion as real, cr).v;
    ScaledError(mul, tokens as real, sum, mr);
    CombineErrors(Settle(mul, prompt, completion, Finite(cr), Finite(mr)),
                  mul(tokens as real, mr).v, mul(sum, mr).v, mr);
  }

  /** With exact products the unrounded charge is (prompt + completion * cr) * mr. */
  lemma ExactPrice(mul: Multiplication, prompt: real, completion: real, cr: real, mr: real)
    requires Exact(mul)
    ensures mul(completion, cr).Finite? && mul(prompt + mul(completion, cr).v, mr).Finite?
    ensures mul(prompt + mul(completion, cr).v, mr).v == (prompt + completion * cr) * mr
  {
    assert ExactAt(mul, completion, cr) && ExactAt(mul, prompt + completion * cr, mr);
  }

  lemma CombineErrors(charge: int, y: real, z: real, m: real)
    requires Abs(y - z) <= 0.5 * m && m >= 0.0 && z >= 0.0 && NearlyCharged(charge, y)
    ensures Abs(charge as real - z) <= if m >= 1.0 then 0.5 * m + 0.5 else 1.0
  {
  }

  lemma ScaledError(mul: Multiplication, a: real, b: real, m: real)
    requires Exact(mul) && Abs(a - b) <= 0.5 && m >= 0.0
    ensures mul(a, m).Finite? && mul(b, m).Finite?
    ensures Abs(mul(a, m).v - mul(b, m).v) <= 0.5 * m
  {
    assert ExactAt(mul, a, m) && ExactAt(mul, b, m);
    assert a * m - b * m == (a - b) * m;
    if a >= b {
      Product(a - b, m);
      Product(0.5 - (a - b), m);
    } else {
      Product(b - a, m);
      Product(0.5 - (b - a), m);
    }
  }

  lemma Product(a: real, b: real)
    requires a >= 0.0 && b >= 0.0
    ensures a * b >= 0.0
  {
  }

  // ------------------------------------------------------------- monotonicity

  predicate AtMost(a: Float, b: Float) {
    match (a, b)
    case (Finite(x), Finite(y)) => x <= y
    case (NaN, _) => false
    case (_, NaN) => false
    case (NegInf, _) => true
    case (_, PosInf) => true
    case _ => false
  }

  /** Multiplication by a factor that is not negative keeps the order, as rounding does. */
  ghost predicate KeepsOrder(mul: Multiplication) {
    forall a, b, m :: a <= b && m >= 0.0 ==> AtMost(mul(a, m), mul(b, m))
  }

  lemma QuotaRoundMonotone(a: Float, b: Float)
    requires AtMost(a, b)
    ensures QuotaRound(a) <= QuotaRound(b)
  {
    if a.Finite? && b.Finite? {
      RoundMonotone(a.v, b.v);
      RoundInteger(Round(a.v));
      RoundInteger(Round(b.v));
    } else {
      RoundExactly(a);
      RoundExactly(b);
    }
  }

  lemma TokensMonotone(p: int, x: Float, p': int, x': Float)
    requires p <= p' && AtMost(x, x')
    ensures Tokens(p, x) <= Tokens(p', x')
  {
    QuotaRoundMonotone(x, x');
    QuotaRoundMonotone(Finite(p as real + QuotaRound(x) as real), Finite(p' as real + QuotaRound(x') as real));
  }

  /** More tokens never cost less, clamped or not, however products are rounded. */
  lemma SettleMonotone(mul: Multiplication, p: int, c: int, p': int, c': int, cr: real, mr: real)
    requires KeepsOrder(mul) && p <= p' && c <= c' && cr >= 0.0 && mr >= 0.0
    ensures Settle(mul, p, c, Finite(cr), Finite(mr)) <= Settle(mul, p', c', Finite(cr), Finite(mr))
  {
    var x, x' := mul(c as real, cr), mul(c' as real, cr);
    TokensMonotone(p, x, p', x');
    var t, t' := Tokens(p, x), Tokens(p', x');
    QuotaRoundMonotone(mul(t as real, mr), mul(t' as real, mr));
  }
}
