/** How much a completed module earns: base by difficulty, capped streak bonus, flat referral bonus. */
module Rewards {
  import opened Wrappers
  import opened Money

  datatype Difficulty = Beginner | Intermediate | Advanced | Expert | UnknownDifficulty

  datatype Reward = Reward(base: int, streakBonus: int, referralBonus: int, total: int)

  const REFERRAL_BONUS := 2 * STROOPS_PER_XLM

  function Multiplier(d: Difficulty): (int, int) {
    match d
    case Beginner => (1, 1)
    case Intermediate => (3, 2)
    case Advanced => (2, 1)
    case Expert => (3, 1)
    case UnknownDifficulty => (1, 1)
  }

  function BaseReward(baseReward: int, d: Difficulty): Result<int, MoneyError> {
    MultiplyStroops(baseReward, Multiplier(d).0, Multiplier(d).1)
  }

  /** A tenth of the base per day, capped at the base; the uncapped product is range-checked first. */
  function StreakBonus(base: int, days: int): Result<int, MoneyError> {
    if days <= 0 then Ok(0)
    else
      match MultiplyStroops(base, days * 1, 10)
      case Err(e) => Err(e)
      case Ok(uncapped) =>
        match MultiplyStroops(base, 1, 1)
        case Err(e) => Err(e)
        case Ok(max) => Ok(ClampStroops(uncapped, max))
  }

  function CalculateReward(baseReward: int, d: Difficulty, days: int, hasReferral: bool): Result<Reward, MoneyError> {
    match BaseReward(baseReward, d)
    case Err(e) => Err(e)
    case Ok(base) =>
      match StreakBonus(base, days)
      case Err(e) => Err(e)
      case Ok(bonus) =>
        var referral := if hasReferral then REFERRAL_BONUS else 0;
        match AddStroops(base, bonus)
        case Err(e) => Err(e)
        case Ok(sum) =>
          match AddStroops(sum, referral)
          case Err(e) => Err(e)
          case Ok(total) => Ok(Reward(base, bonus, referral, total))
  }

  function Min(a: int, b: int): int {
    if a <= b then a else b
  }

  lemma ProductOfNats(a: nat, b: nat)
    ensures a * b >= 0
  {
  }

  /**
   * The bonus is min(base, floor(base * days / 10)), but only as long as the uncapped product is in
   * range: above that the call fails although the capped bonus itself would fit.
   */
  lemma StreakBonusIsCapped(base: nat, days: int)
    requires base <= MAX_STROOPS && days > 0
    ensures StreakBonus(base, days)
      == if base * days / 10 <= MAX_STROOPS then Ok(Min(base, base * days / 10)) else Err(Overflow)
  {
    ProductOfNats(base, days);
    MultiplyRoundsDown(base, days * 1, 10);
    MultiplyRoundsDown(base, 1, 1);
  }

  lemma TenthsGrow(base: nat, d: nat, e: nat)
    requires d <= e
    ensures base * d / 10 <= base * e / 10
  {
    assert base * e == base * d + base * (e - d);
    ProductOfNats(base, e - d);
  }

  lemma TenthsReachBase(base: nat, days: nat)
    requires base > 0
    ensures base * days / 10 >= base <==> days >= 10
  {
    if days >= 10 {
      TenthsGrow(base, 10, days);
    } else {
      assert base * 10 - base * days == base * (10 - days);
      assert base * (10 - days) >= 10 - days;
    }
  }

  /** A longer streak never earns less, and the full bonus is reached exactly from day 10 on. */
  lemma StreakBonusGrows(base: nat, d: int, e: int)
    requires base <= MAX_STROOPS && d <= e && StreakBonus(base, e).Ok?
    ensures StreakBonus(base, d).Ok? && 0 <= StreakBonus(base, d).value <= StreakBonus(base, e).value <= base
    ensures base > 0 ==> (StreakBonus(base, e).value == base <==> e >= 10)
  {
    if e > 0 {
      StreakBonusIsCapped(base, e);
      ProductOfNats(base, e);
      if base > 0 { TenthsReachBase(base, e); }
      if d > 0 {
        StreakBonusIsCapped(base, d);
        ProductOfNats(base, d);
        TenthsGrow(base, d, e);
      }
    }
  }

  lemma BaseRewardRoundsDown(baseReward: int, d: Difficulty)
    ensures BaseReward(baseReward, d).Ok? <==>
      0 <= baseReward && baseReward * Multiplier(d).0 / Multiplier(d).1 <= MAX_STROOPS
    ensures BaseReward(baseReward, d).Ok? ==>
      BaseReward(baseReward, d).value == baseReward * Multiplier(d).0 / Multiplier(d).1
  {
    if baseReward >= 0 {
      MultiplyRoundsDown(baseReward, Multiplier(d).0, Multiplier(d).1);
    }
  }

  /** What a tier pays for a module that is worth `n` stroops: once, one and a half times, twice and three times. */
  lemma TiersPay(n: nat)
    requires 3 * n <= MAX_STROOPS
    ensures BaseReward(n, Beginner) == Ok(n) && BaseReward(n, UnknownDifficulty) == Ok(n)
    ensures BaseReward(n, Intermediate) == Ok(3 * n / 2)
    ensures BaseReward(n, Advanced) == Ok(2 * n)
    ensures BaseReward(n, Expert) == Ok(3 * n)
  {
    MultiplyRoundsDown(n, 1, 1);
    MultiplyRoundsDown(n, 3, 2);
    MultiplyRoundsDown(n, 2, 1);
    MultiplyRoundsDown(n, 3, 1);
  }

  /** A referral adds exactly two XLM, and none adds nothing. */
  lemma ReferralAddsTwoXlm(baseReward: int, d: Difficulty, days: int)
    requires CalculateReward(baseReward, d, days, true).Ok?
    ensures CalculateReward(baseReward, d, days, false).Ok?
    ensures var with, without :=
      CalculateReward(baseReward, d, days, true).value, CalculateReward(baseReward, d, days, false).value;
      && with.referralBonus == 20_000_000 && without.referralBonus == 0
      && with.total == without.total + 20_000_000
      && with.base == without.base && with.streakBonus == without.streakBonus
  {
    RewardIsBounded(baseReward, d, days, true);
    RewardSucceedsExactlyInRange(baseReward, d, days, true);
    RewardSucceedsExactlyInRange(baseReward, d, days, false);
    RewardIsBounded(baseReward, d, days, false);
  }

  /**
   * A reward is its three parts, with base floor(baseReward * num / den) for the tier, and never more
   * than twice the base plus the referral bonus.
   */
  lemma RewardIsBounded(baseReward: int, d: Difficulty, days: int, hasReferral: bool)
    requires CalculateReward(baseReward, d, days, hasReferral).Ok?
    ensures var r := CalculateReward(baseReward, d, days, hasReferral).value;
      && r.base == baseReward * Multiplier(d).0 / Multiplier(d).1 >= 0
      && r.streakBonus == (if days <= 0 then 0 else Min(r.base, r.base * days / 10))
      && r.referralBonus == (if hasReferral then REFERRAL_BONUS else 0)
      && r.total == r.base + r.streakBonus + r.referralBonus
      && 0 <= r.total <= 2 * r.base + REFERRAL_BONUS && r.total <= MAX_STROOPS
  {
    BaseRewardRoundsDown(baseReward, d);
    var base := BaseReward(baseReward, d).value;
    if days > 0 {
      StreakBonusIsCapped(base, days);
      ProductOfNats(base, days);
    }
  }

  /** A reward is computed exactly when no intermediate result leaves the range. */
  lemma RewardSucceedsExactlyInRange(baseReward: int, d: Difficulty, days: int, hasReferral: bool)
    ensures var base := baseReward * Multiplier(d).0 / Multiplier(d).1;
      CalculateReward(baseReward, d, days, hasReferral).Ok? <==>
        && baseReward >= 0 && base <= MAX_STROOPS
        && (days > 0 ==> base * days / 10 <= MAX_STROOPS)
        && base + (if days > 0 then Min(base, base * days / 10) else 0)
           + (if hasReferral then REFERRAL_BONUS else 0) <= MAX_STROOPS
  {
    BaseRewardRoundsDown(baseReward, d);
    if BaseReward(baseReward, d).Ok? {
      var base := BaseReward(baseReward, d).value;
      if days > 0 {
        StreakBonusIsCapped(base, days);
        ProductOfNats(base, days);
      }
    }
  }
}
