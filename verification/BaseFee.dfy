/** Header validation and the EIP-1559 base fee over whole runs of accepted headers. */
module BaseFees {
  import opened Words
  import opened Wrappers

  const INITIAL_BASE_FEE: nat := 1_000_000_000

  const MAX_CHANGE_DENOMINATOR: nat := 8

  const ELASTICITY_MULTIPLIER: nat := 2

  datatype ForkCondition = AtBlock(block: U64) | TotalDifficulty(forkBlock: Option<U64>) | AtTime(time: U64) | Never

  datatype ChainSpec = ChainSpec(london: ForkCondition, shanghai: ForkCondition)

  datatype Header = Header(
    number: U64,
    timestamp: U64,
    gasLimit: U64,
    gasUsed: U64,
    baseFee: Option<U64>,
    extraDataLength: nat,
    hasWithdrawalsRoot: bool)

  datatype Error =
    | HeaderGasUsedExceedsGasLimit
    | TimestampIsInFuture
    | ExtraDataExceedsMax
    | BaseFeeMissing
    | WithdrawalsRootMissing
    | WithdrawalsRootUnexpected
    | ParentBlockNumberMismatch
    | TimestampIsInPast
    | GasLimitInvalidIncrease
    | GasLimitInvalidDecrease
    | BaseFeeDiff(expected: nat, got: nat)

  /** A check passes, fails, or does arithmetic that has no 64-bit result. */
  datatype Verdict = Accepted | Rejected(error: Error) | Overflows

  predicate ActiveAtBlock(c: ForkCondition, n: nat) {
    match c
    case AtBlock(b) => n >= b
    case TotalDifficulty(Some(b)) => n >= b
    case _ => false
  }

  predicate TransitionsAtBlock(c: ForkCondition, n: nat) {
    c.AtBlock? && n == c.block
  }

  predicate ActiveAtTime(c: ForkCondition, t: nat) {
    c.AtTime? && t >= c.time
  }

  function Max(a: nat, b: nat): nat {
    if a < b then b else a
  }

  // ---------------------------------------------------------------- the fee

  /** What the fee moves by; the products are 128-bit and the result is cut to 64 bits. */
  function Change(baseFee: nat, gasDelta: nat, target: nat): nat
    requires target > 0
  {
    baseFee * gasDelta / target / MAX_CHANGE_DENOMINATOR
  }

  /** `None` stands for the two ways this has no result: a zero target, and a sum over 64 bits. */
  function NextBaseFee(gasUsed: U64, gasLimit: U64, baseFee: U64): Option<U64> {
    var target := gasLimit / ELASTICITY_MULTIPLIER;
    if gasUsed == target then Some(baseFee)
    else if target == 0 then None
    else if gasUsed > target then
      var delta := Max(1, Change(baseFee, gasUsed - target, target)) % TWO_TO_THE_64;
      if baseFee + delta < TWO_TO_THE_64 then Some(baseFee + delta) else None
    else
      var delta := Change(baseFee, target - gasUsed, target) % TWO_TO_THE_64;
      Some(if delta <= baseFee then baseFee - delta else 0)
  }

  // ---------------------------------------------------------------- validation

  function ValidateStandalone(h: Header, spec: ChainSpec, now: nat): Verdict {
    if h.gasUsed > h.gasLimit then Rejected(HeaderGasUsedExceedsGasLimit)
    else if h.timestamp > now then Rejected(TimestampIsInFuture)
    else if h.extraDataLength > 32 then Rejected(ExtraDataExceedsMax)
    else if ActiveAtBlock(spec.london, h.number) && h.baseFee.None? then Rejected(BaseFeeMissing)
    else if ActiveAtTime(spec.shanghai, h.timestamp) && !h.hasWithdrawalsRoot then Rejected(WithdrawalsRootMissing)
    else if !ActiveAtTime(spec.shanghai, h.timestamp) && h.hasWithdrawalsRoot then Rejected(WithdrawalsRootUnexpected)
    else Accepted
  }

  /** The gas limit a child is compared with: doubled at the London block. */
  function ParentLimit(parent: Header, child: Header, spec: ChainSpec): nat {
    if TransitionsAtBlock(spec.london, child.number) then parent.gasLimit * ELASTICITY_MULTIPLIER else parent.gasLimit
  }

  function ValidateLimit(limit: nat, child: nat): Verdict {
    if child > limit then
      if child - limit >= limit / 1024 then Rejected(GasLimitInvalidIncrease) else Accepted
    else
      if limit - child >= limit / 1024 then Rejected(GasLimitInvalidDecrease) else Accepted
  }

  function ValidateFee(parent: Header, child: Header, spec: ChainSpec): Verdict {
    if !ActiveAtBlock(spec.london, child.number) then Accepted
    else if child.baseFee.None? then Rejected(BaseFeeMissing)
    else if TransitionsAtBlock(spec.london, child.number) then CompareFee(INITIAL_BASE_FEE, child.baseFee.value)
    else if parent.baseFee.None? then Rejected(BaseFeeMissing)
    else
      match NextBaseFee(parent.gasUsed, parent.gasLimit, parent.baseFee.value)
      case None => Overflows
      case Some(expected) => CompareFee(expected, child.baseFee.value)
  }

  function CompareFee(expected: nat, got: nat): Verdict {
    if expected != got then Rejected(BaseFeeDiff(expected, got)) else Accepted
  }

  function ValidateRegardingParent(parent: Header, child: Header, spec: ChainSpec): Verdict {
    if parent.number + 1 >= TWO_TO_THE_64 then Overflows
    else if parent.number + 1 != child.number then Rejected(ParentBlockNumberMismatch)
    else if child.timestamp < parent.timestamp then Rejected(TimestampIsInPast)
    else if ParentLimit(parent, child, spec) >= TWO_TO_THE_64 then Overflows
    else
      var limits := ValidateLimit(ParentLimit(parent, child, spec), child.gasLimit);
      if !limits.Accepted? then limits else ValidateFee(parent, child, spec)
  }

  // ---------------------------------------------------------------- gas limits

  /** A gas limit is accepted exactly when it moves by less than 1/1024. */
  lemma {:induction false} LimitExact(limit: nat, child: nat)
    ensures ValidateLimit(limit, child).Accepted? <==> limit - limit / 1024 < child < limit + limit / 1024
    ensures ValidateLimit(limit, child).Accepted? ==> limit >= 1024 && child >= 1024
  {
  }

  /** A limit that is below 1024 after any London doubling has no successor. */
  lemma {:induction false} SmallLimitHasNoChild(parent: Header, child: Header, spec: ChainSpec)
    requires ParentLimit(parent, child, spec) < 1024
    ensures !ValidateRegardingParent(parent, child, spec).Accepted?
  {
    LimitExact(ParentLimit(parent, child, spec), child.gasLimit);
  }

  /** Some header passes both validations on top of `parent`. */
  ghost predicate HasChild(parent: Header, spec: ChainSpec, now: nat) {
    exists child: Header :: Extends(parent, child, spec, now)
  }

  predicate Extends(parent: Header, child: Header, spec: ChainSpec, now: nat) {
    ValidateStandalone(child, spec, now).Accepted? && ValidateRegardingParent(parent, child, spec).Accepted?
  }

  /** The fee the next block has to state, where one can be stated at all. */
  function RequiredFee(parent: Header, spec: ChainSpec): Option<U64>
    requires ActiveAtBlock(spec.london, parent.number + 1)
  {
    if TransitionsAtBlock(spec.london, parent.number + 1) then Some(INITIAL_BASE_FEE)
    else if parent.baseFee.None? then None
    else NextBaseFee(parent.gasUsed, parent.gasLimit, parent.baseFee.value)
  }

  /**
   * Exactly which blocks can be built on. The gas limit has to be at least 1024, or 512 just before London, where it
   * is doubled, and the doubled one has to fit in 64 bits.
   */
  lemma {:induction false} HasChildExact(parent: Header, spec: ChainSpec, now: nat)
    ensures HasChild(parent, spec, now) <==>
      && parent.number + 1 < TWO_TO_THE_64
      && parent.timestamp <= now
      && (if TransitionsAtBlock(spec.london, parent.number + 1) then 512 <= parent.gasLimit < TWO_TO_THE_64 / 2
          else 1024 <= parent.gasLimit)
      && (ActiveAtBlock(spec.london, parent.number + 1) ==> RequiredFee(parent, spec).Some?)
  {
    hide NextBaseFee;
    var london := ActiveAtBlock(spec.london, parent.number + 1);
    if child: Header :| Extends(parent, child, spec, now) {
      LimitExact(ParentLimit(parent, child, spec), child.gasLimit);
    }
    var doubled := TransitionsAtBlock(spec.london, parent.number + 1);
    var limit := if doubled then 2 * parent.gasLimit else parent.gasLimit;
    if parent.number + 1 < TWO_TO_THE_64 && parent.timestamp <= now && 1024 <= limit < TWO_TO_THE_64 &&
       (london ==> RequiredFee(parent, spec).Some?) {
      var fee := if london then RequiredFee(parent, spec) else None;
      var child := Header(parent.number + 1, parent.timestamp, limit, 0, fee, 0,
        ActiveAtTime(spec.shanghai, parent.timestamp));
      LimitExact(limit, limit);
      assert Extends(parent, child, spec, now);
    }
  }

  // ---------------------------------------------------------------- one step of the fee

  /** The division that rounds twice is one division by the product, bounded on both sides. */
  lemma {:induction false} ChangeBounds(baseFee: nat, gasDelta: nat, target: nat)
    requires target > 0
    ensures Change(baseFee, gasDelta, target) * (8 * target) <= baseFee * gasDelta
    ensures baseFee * gasDelta < Change(baseFee, gasDelta, target) * (8 * target) + 8 * target
  {
    DoubleDivision(baseFee * gasDelta, target);
  }

  lemma {:induction false} DoubleDivision(n: nat, d: nat)
    requires d > 0
    ensures n / d / 8 * (8 * d) <= n < n / d / 8 * (8 * d) + 8 * d
  {
    var q := n / d;
    var c := q / 8;
    assert n == q * d + n % d;
    assert q == c * 8 + q % 8;
    assert c * (8 * d) == (c * 8) * d;
    MulLe(c * 8, q, d);
    MulLe(q, c * 8 + 7, d);
    assert (c * 8 + 7) * d == (c * 8) * d + 7 * d;
  }

  lemma {:induction false} MulLe(a: nat, b: nat, c: nat)
    requires a <= b
    ensures a * c <= b * c
  {
  }

  lemma {:induction false} MulCancel(a: nat, b: nat, c: nat)
    requires c > 0 && a * c <= b * c
    ensures a <= b
  {
    Spread(b, 1, c);
    if a > b {
      MulLe(b + 1, a, c);
    }
  }

  /** When at least as much gas is free as is used up to the target, the fee drops by at most an eighth. */
  lemma {:induction false} DropIsSmall(baseFee: nat, gasDelta: nat, target: nat)
    requires 0 < target && gasDelta <= target
    ensures 8 * Change(baseFee, gasDelta, target) <= baseFee
  {
    var c := Change(baseFee, gasDelta, target);
    ChangeBounds(baseFee, gasDelta, target);
    assert baseFee * gasDelta <= baseFee * target by {
      MulLe(gasDelta, target, baseFee);
    }
    assert c * (8 * target) == (c * 8) * target;
    MulCancel(c * 8, baseFee, target);
  }

  /** The largest rise: (t + 1) / 8t of the fee. */
  function LargestRise(baseFee: nat, target: nat): nat
    requires target > 0
  {
    Ratio(baseFee * (target + 1), 8 * target)
  }

  function Ratio(n: nat, d: nat): nat
    requires d > 0
  {
    n / d
  }

  /** Gas use is at most one over twice the target, so the fee rises by at most a quarter. */
  lemma {:induction false} RiseIsSmall(baseFee: nat, gasDelta: nat, target: nat)
    requires 0 < target && gasDelta <= target + 1
    ensures 4 * Change(baseFee, gasDelta, target) <= baseFee
    ensures Change(baseFee, gasDelta, target) <= LargestRise(baseFee, target)
  {
    hide Change;
    var c := Change(baseFee, gasDelta, target);
    ChangeBounds(baseFee, gasDelta, target);
    MulLe(gasDelta, target + 1, baseFee);
    MulLe(target + 1, 2 * target, baseFee);
    assert c * (8 * target) == (c * 4) * (2 * target);
    MulCancel(c * 4, baseFee, 2 * target);
    DivLower(c, baseFee * (target + 1), 8 * target);
  }

  lemma {:induction false} DivLower(c: nat, n: nat, d: nat)
    requires d > 0 && c * d <= n
    ensures c <= Ratio(n, d)
  {
    var q := n / d;
    assert n == q * d + n % d;
    Spread(q, 1, d);
    if c > q {
      MulLe(q + 1, c, d);
    }
  }

  /** The effect of one block on the fee, without truncation or saturation. */
  function Moved(gasUsed: nat, target: nat, baseFee: nat): int
    requires target > 0
  {
    if gasUsed == target then baseFee
    else if gasUsed > target then baseFee + Max(1, Change(baseFee, gasUsed - target, target))
    else baseFee - Change(baseFee, target - gasUsed, target)
  }

  /** Within the gas limit nothing is truncated, saturated or divided by zero; only the final sum can overflow. */
  lemma {:induction false} NextBaseFeeExact(gasUsed: U64, gasLimit: U64, baseFee: U64)
    requires gasUsed <= gasLimit && gasLimit >= 2
    ensures var moved := Moved(gasUsed, gasLimit / 2, baseFee);
      0 <= moved && NextBaseFee(gasUsed, gasLimit, baseFee) == if moved < TWO_TO_THE_64 then Some(moved) else None
  {
    hide Change;
    var target := gasLimit / 2;
    if gasUsed > target {
      RiseIsSmall(baseFee, gasUsed - target, target);
    } else if gasUsed < target {
      DropIsSmall(baseFee, target - gasUsed, target);
    }
  }

  /** The exact rational rule of EIP-1559, times eight targets. */
  function Scaled(gasUsed: nat, target: nat, baseFee: nat): int {
    baseFee * (8 * target) + baseFee * (gasUsed - target)
  }

  /** The fee is the exact rule rounded by at most one unit. */
  lemma {:induction false} FeeIsRounded(gasUsed: nat, target: nat, baseFee: nat)
    requires 0 < target
    ensures Scaled(gasUsed, target, baseFee) - 8 * target < Moved(gasUsed, target, baseFee) * (8 * target)
    ensures Moved(gasUsed, target, baseFee) * (8 * target) <= Scaled(gasUsed, target, baseFee) + 8 * target
  {
    hide Change;
    if gasUsed > target {
      var c := Change(baseFee, gasUsed - target, target);
      ChangeBounds(baseFee, gasUsed - target, target);
      Spread(baseFee, c, 8 * target);
      Spread(baseFee, 1, 8 * target);
    } else if gasUsed < target {
      var c: int := Change(baseFee, target - gasUsed, target);
      ChangeBounds(baseFee, target - gasUsed, target);
      Spread(baseFee, -c, 8 * target);
      Spread(0, c, 8 * target);
      Negate(baseFee, target - gasUsed);
    }
  }

  lemma {:induction false} Spread(a: int, b: int, c: int)
    ensures (a + b) * c == a * c + b * c
    ensures (-b) * c == -(b * c)
  {
  }

  lemma {:induction false} Negate(a: int, b: int)
    ensures a * (-b) == -(a * b)
  {
  }

  lemma {:induction false} ChangeMonotone(baseFee: nat, a: nat, b: nat, target: nat)
    requires target > 0 && a <= b
    ensures Change(baseFee, a, target) <= Change(baseFee, b, target)
  {
    MulLe(a, b, baseFee);
    ChangeBounds(baseFee, a, target);
    ChangeBounds(baseFee, b, target);
    var c, d := Change(baseFee, a, target), Change(baseFee, b, target);
    if c > d {
      MulLe(d + 1, c, 8 * target);
      Spread(d, 1, 8 * target);
    }
  }

  /** More gas used never means a lower fee. */
  lemma {:induction false} FeeMonotone(a: nat, b: nat, target: nat, baseFee: nat)
    requires target > 0 && a <= b
    ensures Moved(a, target, baseFee) <= Moved(b, target, baseFee)
  {
    if b < target {
      ChangeMonotone(baseFee, target - b, target - a, target);
    } else if a > target {
      ChangeMonotone(baseFee, a - target, b - target, target);
    }
  }

  /** Bounds of one step: at most an eighth down, and up by at most one unit or the largest rise. */
  lemma {:induction false} FeeStep(gasUsed: U64, gasLimit: U64, baseFee: U64, next: U64)
    requires gasUsed <= gasLimit && gasLimit >= 2 && NextBaseFee(gasUsed, gasLimit, baseFee) == Some(next)
    ensures 8 * next >= 7 * baseFee
    ensures baseFee >= 7 ==> next >= 7
    ensures next <= baseFee + Max(1, LargestRise(baseFee, gasLimit / 2))
    ensures gasUsed > gasLimit / 2 ==> next > baseFee
    ensures gasUsed < gasLimit / 2 ==> next <= baseFee
    ensures gasUsed == gasLimit / 2 ==> next == baseFee
  {
    hide Change;
    var target := gasLimit / 2;
    NextBaseFeeExact(gasUsed, gasLimit, baseFee);
    if gasUsed > target {
      RiseIsSmall(baseFee, gasUsed - target, target);
    } else if gasUsed < target {
      DropIsSmall(baseFee, target - gasUsed, target);
    }
  }

  // ---------------------------------------------------------------- runs

  /** Each header passes its own checks, and the checks against the one before it. */
  ghost predicate IsRun(headers: seq<Header>, spec: ChainSpec, now: nat) {
    && (forall i {:trigger headers[i]} :: 0 <= i < |headers| ==> ValidateStandalone(headers[i], spec, now).Accepted?)
    && (forall i {:trigger Follows(headers, spec, i)} :: 0 < i < |headers| ==> Follows(headers, spec, i))
  }

  ghost predicate Follows(headers: seq<Header>, spec: ChainSpec, i: nat)
    requires 0 < i < |headers|
  {
    ValidateRegardingParent(headers[i - 1], headers[i], spec).Accepted?
  }

  /** Whatever the parent's gas limit is, validation never divides by a zero target. */
  lemma {:induction false} NeverDividesByZero(parent: Header, child: Header, spec: ChainSpec)
    requires parent.gasUsed <= parent.gasLimit && ValidateRegardingParent(parent, child, spec) == Overflows
    ensures
      || parent.number + 1 == TWO_TO_THE_64
      || ParentLimit(parent, child, spec) >= TWO_TO_THE_64
      || (parent.baseFee.Some? && parent.gasLimit >= 1024 &&
          Moved(parent.gasUsed, parent.gasLimit / 2, parent.baseFee.value) >= TWO_TO_THE_64)
  {
    if parent.number + 1 < TWO_TO_THE_64 && ParentLimit(parent, child, spec) < TWO_TO_THE_64 {
      LimitExact(ParentLimit(parent, child, spec), child.gasLimit);
      NextBaseFeeExact(parent.gasUsed, parent.gasLimit, parent.baseFee.value);
    }
  }

  /** One accepted step after London. */
  lemma {:induction false} AcceptedStep(parent: Header, child: Header, spec: ChainSpec)
    requires parent.gasUsed <= parent.gasLimit && parent.baseFee.Some?
    requires ValidateRegardingParent(parent, child, spec).Accepted?
    requires ActiveAtBlock(spec.london, child.number) && !TransitionsAtBlock(spec.london, child.number)
    ensures child.number == parent.number + 1
    ensures parent.gasLimit >= 1024 && child.gasLimit >= 1024
    ensures child.baseFee == NextBaseFee(parent.gasUsed, parent.gasLimit, parent.baseFee.value)
    ensures child.baseFee.Some?
  {
    LimitExact(parent.gasLimit, child.gasLimit);
  }

  function Power(b: nat, k: nat): nat {
    if k == 0 then 1 else b * Power(b, k - 1)
  }

  /** A run that starts at the London block. */
  ghost predicate FromLondon(headers: seq<Header>, spec: ChainSpec) {
    && headers != [] && spec.london == AtBlock(headers[0].number)
    && headers[0].baseFee == Some(INITIAL_BASE_FEE) && headers[0].gasLimit >= 1024
  }

  /** The London block itself, as accepted after its parent. */
  lemma {:induction false} LondonBlock(parent: Header, child: Header, spec: ChainSpec, now: nat)
    requires ValidateStandalone(child, spec, now).Accepted?
    requires TransitionsAtBlock(spec.london, child.number) && ValidateRegardingParent(parent, child, spec).Accepted?
    ensures FromLondon([child], spec)
  {
    LimitExact(ParentLimit(parent, child, spec), child.gasLimit);
  }

  /** Every header of a run from London has a fee and a gas limit that keep the rules well defined. */
  lemma {:induction false} RunFromLondon(headers: seq<Header>, spec: ChainSpec, now: nat, i: nat)
    requires IsRun(headers, spec, now) && FromLondon(headers, spec) && i < |headers|
    ensures headers[i].number == headers[0].number + i
    ensures headers[i].gasLimit >= 1024
    ensures headers[i].baseFee.Some? && headers[i].baseFee.value >= 7
    decreases i
  {
    hide NextBaseFee, ValidateStandalone, ValidateRegardingParent;
    if i > 0 {
      RunFromLondon(headers, spec, now, i - 1);
      StepInRun(headers, spec, now, i);
    }
  }

  /** One header follows another by the fee rule and within its bounds. */
  ghost predicate FollowsRule(parent: Header, child: Header)
    requires parent.gasLimit >= 2 && parent.baseFee.Some? && child.baseFee.Some?
  {
    var fee, next := parent.baseFee.value, child.baseFee.value;
    && NextBaseFee(parent.gasUsed, parent.gasLimit, fee) == Some(next)
    && 8 * next >= 7 * fee
    && (fee >= 7 ==> next >= 7)
    && next <= fee + Max(1, LargestRise(fee, parent.gasLimit / 2))
  }

  lemma {:induction false} StepInRun(headers: seq<Header>, spec: ChainSpec, now: nat, i: nat)
    requires IsRun(headers, spec, now) && FromLondon(headers, spec) && 0 < i < |headers|
    requires headers[i - 1].number == headers[0].number + i - 1
    requires headers[i - 1].gasLimit >= 1024 && headers[i - 1].baseFee.Some?
    ensures headers[i].number == headers[0].number + i
    ensures headers[i].gasLimit >= 1024 && headers[i].baseFee.Some?
    ensures FollowsRule(headers[i - 1], headers[i])
  {
    hide NextBaseFee;
    var parent, child := headers[i - 1], headers[i];
    assert Follows(headers, spec, i);
    assert ValidateStandalone(parent, spec, now).Accepted?;
    assert child.number == parent.number + 1;
    AcceptedStep(parent, child, spec);
    FeeStep(parent.gasUsed, parent.gasLimit, parent.baseFee.value, child.baseFee.value);
  }

  /** Every step of every run from London follows the fee rule and stays within its bounds. */
  lemma {:induction false} RunStep(headers: seq<Header>, spec: ChainSpec, now: nat, i: nat)
    requires IsRun(headers, spec, now) && FromLondon(headers, spec) && 0 < i < |headers|
    ensures headers[i - 1].gasLimit >= 1024 && headers[i - 1].baseFee.Some? && headers[i].baseFee.Some?
    ensures FollowsRule(headers[i - 1], headers[i])
  {
    hide FollowsRule, ValidateStandalone, ValidateRegardingParent;
    RunFromLondon(headers, spec, now, i - 1);
    StepInRun(headers, spec, now, i);
  }

  /** Over a whole run the fee falls no faster than by an eighth a block. */
  lemma {:induction false} RunDecay(headers: seq<Header>, spec: ChainSpec, now: nat, i: nat)
    requires IsRun(headers, spec, now) && FromLondon(headers, spec) && i < |headers|
    ensures headers[i].baseFee.Some?
    ensures Power(8, i) * headers[i].baseFee.value >= Power(7, i) * INITIAL_BASE_FEE
    decreases i
  {
    hide NextBaseFee, ValidateStandalone, ValidateRegardingParent;
    if i > 0 {
      RunDecay(headers, spec, now, i - 1);
      RunStep(headers, spec, now, i);
      Compound(Power(8, i - 1), Power(7, i - 1) * INITIAL_BASE_FEE,
        headers[i - 1].baseFee.value, headers[i].baseFee.value);
      assert 7 * (Power(7, i - 1) * INITIAL_BASE_FEE) == Power(7, i) * INITIAL_BASE_FEE;
    }
  }

  lemma {:induction false} Compound(scale: nat, floor: nat, fee: nat, next: nat)
    requires scale * fee >= floor && 8 * next >= 7 * fee
    ensures (8 * scale) * next >= 7 * floor
  {
    MulLe(7 * fee, 8 * next, scale);
    assert (8 * scale) * next == (8 * next) * scale;
    assert (7 * fee) * scale == 7 * (scale * fee);
  }
}
