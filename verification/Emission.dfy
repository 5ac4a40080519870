/** The emission schedule (gratia-core/src/emission.rs). The methods compute on 64-bit words,
    so that Dafny checks every intermediate result for overflow. */
module Emission {
  import opened Counting

  newtype U64 = x: int | 0 <= x < 0x1_0000_0000_0000_0000
  newtype U32 = x: int | 0 <= x < 0x1_0000_0000

  const LUX_PER_GRAT := 1_000_000
  const TOTAL_MINING_SUPPLY_GRAT := 8_500_000_000
  const YEAR_1_EMISSION_GRAT := 2_125_000_000
  const ANNUAL_RETENTION_BPS := 7500
  const BLOCK_TIME_SECS := 4
  const BLOCKS_PER_DAY := 86_400 / BLOCK_TIME_SECS
  const BLOCKS_PER_YEAR := BLOCKS_PER_DAY * 365
  const MAX_YEAR := 0xFFFF_FFFF

  // ------------------------------------------------------------ specification

  /** Emission of a year: three quarters of the previous year's, rounded down. */
  function Annual(year: nat): nat {
    if year == 0 then 0
    else if year == 1 then YEAR_1_EMISSION_GRAT
    else Annual(year - 1) * ANNUAL_RETENTION_BPS / 10_000
  }

  function Cumulative(year: nat): nat {
    if year == 0 then 0 else Cumulative(year - 1) + Annual(year)
  }

  function YearFor(height: nat): nat {
    var year := height / BLOCKS_PER_YEAR + 1;
    if year < MAX_YEAR then year else MAX_YEAR
  }

  function YearReward(year: nat): nat {
    Annual(year) / 365 * LUX_PER_GRAT / BLOCKS_PER_DAY
  }

  function BlockReward(height: nat): nat {
    YearReward(YearFor(height))
  }

  function Sum(f: nat -> nat, n: nat): nat {
    if n == 0 then 0 else Sum(f, n - 1) + f(n - 1)
  }

  /** All rewards of a chain of `length` blocks. */
  function TotalRewards(length: nat): nat {
    Sum(BlockReward, length)
  }

  // ------------------------------------------------------------ what is rounded

  /** The greatest whole number of coins that can be paid on each of 365 days. */
  predicate IsDailyBudget(year: nat, daily: nat) {
    daily * 365 <= Annual(year) < (daily + 1) * 365
  }

  /** The greatest whole number of Lux that each of the 21600 blocks of a day can pay from the daily budget. */
  ghost predicate IsBlockReward(year: nat, reward: nat) {
    exists daily: nat :: IsDailyBudget(year, daily) && reward * 21_600 <= daily * 1_000_000 < (reward + 1) * 21_600
  }

  lemma RewardMeans(year: nat)
    ensures IsBlockReward(year, YearReward(year))
  {
    var daily := Annual(year) / 365;
    DivBounds(Annual(year), 365);
    DivBounds(daily * LUX_PER_GRAT, BLOCKS_PER_DAY);
    assert IsDailyBudget(year, daily);
  }

  /** Rounding is settled by these bounds: there is one daily budget and one reward. */
  lemma RewardIsUnique(year: nat, reward: nat)
    requires IsBlockReward(year, reward)
    ensures reward == YearReward(year)
  {
    RewardMeans(year);
    var d: nat :| IsDailyBudget(year, d) && reward * 21_600 <= d * 1_000_000 < (reward + 1) * 21_600;
    var e: nat :| && IsDailyBudget(year, e)
                  && YearReward(year) * 21_600 <= e * 1_000_000 < (YearReward(year) + 1) * 21_600;
    assert d == e;
  }

  /** A block of height h is in year y when y - 1 full years of 7884000 blocks precede it. */
  lemma YearMeans(height: nat, year: nat)
    requires 1 <= year < MAX_YEAR
    ensures YearFor(height) == year <==> (year - 1) * 7_884_000 <= height < year * 7_884_000
  {
    DivBounds(height, BLOCKS_PER_YEAR);
    if (year - 1) * 7_884_000 <= height < year * 7_884_000 {
      assert height / BLOCKS_PER_YEAR == year - 1;
    }
  }

  // ------------------------------------------------------------------ methods

  method AnnualEmission(year: U32) returns (emission: U64)
    ensures emission as nat == Annual(year as nat)
  {
    if year == 0 {
      return 0;
    }
    emission := YEAR_1_EMISSION_GRAT as U64;
    var y: U32 := 1;
    while y < year
      invariant 1 <= y <= year
      invariant emission as nat == Annual(y as nat) <= YEAR_1_EMISSION_GRAT
    {
      AnnualShrinks(y as nat + 1);
      emission := emission * (ANNUAL_RETENTION_BPS as U64) / 10_000;
      y := y + 1;
    }
  }

  method CumulativeEmission(upToYear: U32) returns (total: U64)
    ensures total as nat == Cumulative(upToYear as nat) < TOTAL_MINING_SUPPLY_GRAT
  {
    total := 0;
    var y: U32 := 0;
    while y < upToYear
      invariant y <= upToYear
      invariant total as nat == Cumulative(y as nat)
    {
      y := y + 1;
      var annual := AnnualEmission(y);
      CumulativeBelowSupply(y as nat);
      total := total + annual;
    }
    CumulativeBelowSupply(upToYear as nat);
  }

  method YearForHeight(height: U64) returns (year: U32)
    ensures year as nat == YearFor(height as nat)
  {
    var wide := height / (BLOCKS_PER_YEAR as U64) + 1;
    year := if wide < MAX_YEAR as U64 then wide as U32 else MAX_YEAR as U32;
  }

  method DailyBudget(year: U32) returns (daily: U64)
    ensures IsDailyBudget(year as nat, daily as nat)
    ensures daily as nat == Annual(year as nat) / 365 <= YEAR_1_EMISSION_GRAT
  {
    var annual := AnnualEmission(year);
    AnnualShrinks(year as nat);
    daily := annual / 365;
    DivBounds(annual as nat, 365);
  }

  method BlockRewardLux(height: U64) returns (reward: U64)
    ensures reward as nat == BlockReward(height as nat)
  {
    var year := YearForHeight(height);
    var daily := DailyBudget(year);
    reward := (daily * (LUX_PER_GRAT as U64)) / (BLOCKS_PER_DAY as U64);
  }

  /** No split pays out more than the block's reward, and it leaves less than one Lux per miner. */
  method PerMinerRewardLux(height: U64, activeMiners: U64) returns (share: U64)
    ensures activeMiners == 0 ==> share as nat == BlockReward(height as nat)
    ensures activeMiners > 0 ==>
              var (each, miners, total) := (share as nat, activeMiners as nat, BlockReward(height as nat));
              each * miners <= total < (each + 1) * miners
  {
    var total := BlockRewardLux(height);
    if activeMiners == 0 {
      return total;
    }
    share := total / activeMiners;
    DivBounds(total as nat, activeMiners as nat);
  }

  // -------------------------------------------------------------- annual curve

  lemma {:induction false} AnnualShrinks(year: nat)
    ensures Annual(year) <= YEAR_1_EMISSION_GRAT
    ensures year >= 2 ==> 4 * Annual(year) <= 3 * Annual(year - 1) < 4 * (Annual(year) + 1)
    ensures year >= 2 && Annual(year - 1) > 0 ==> Annual(year) < Annual(year - 1)
  {
    if year >= 2 {
      AnnualShrinks(year - 1);
    }
  }

  /** What has been emitted plus four times the next year stays within the supply; once the next year
      emits nothing, rounding has already lost something. */
  lemma {:induction false} RemainderCovers(year: nat)
    requires year >= 1
    ensures Cumulative(year) + 4 * Annual(year + 1) <= TOTAL_MINING_SUPPLY_GRAT
    ensures Annual(year + 1) == 0 ==> Cumulative(year) < TOTAL_MINING_SUPPLY_GRAT
  {
    if year == 1 {
      assert Annual(2) == 1_593_750_000 && Cumulative(1) == Cumulative(0) + Annual(1);
    } else {
      RemainderCovers(year - 1);
      AnnualShrinks(year + 1);
    }
  }

  /** The emission of any number of years stays strictly below the supply. */
  lemma CumulativeBelowSupply(year: nat)
    ensures Cumulative(year) < TOTAL_MINING_SUPPLY_GRAT
  {
    if year >= 1 {
      RemainderCovers(year);
    }
  }

  /** Emission falls by at least one unit a year until it reaches zero, long before years stop counting. */
  lemma {:induction false} AnnualReachesZero(year: nat)
    requires year >= 1
    ensures Annual(year) == 0 || Annual(year) + year <= YEAR_1_EMISSION_GRAT + 1
  {
    if year >= 2 {
      AnnualReachesZero(year - 1);
      AnnualShrinks(year);
    }
  }

  // ---------------------------------------------------------------- supply cap

  /** A full year of blocks pays at most the year's emission. */
  lemma YearWithinEmission(year: nat)
    ensures BLOCKS_PER_YEAR * YearReward(year) <= LUX_PER_GRAT * Annual(year)
  {
    var daily := Annual(year) / 365;
    DivBounds(Annual(year), 365);
    DivBounds(daily * LUX_PER_GRAT, BLOCKS_PER_DAY);
  }

  /** And less than 372 coins of it are lost to rounding. */
  lemma YearPaysNearlyAll(year: nat)
    ensures LUX_PER_GRAT * Annual(year) < BLOCKS_PER_YEAR * YearReward(year) + 372_000_000
  {
    RewardMeans(year);
  }

  /** Heights past the last countable year earn nothing, as does that year itself. */
  lemma RewardOfYear(height: nat)
    ensures BlockReward(height) == YearReward(height / BLOCKS_PER_YEAR + 1)
  {
    var year := height / BLOCKS_PER_YEAR + 1;
    if year >= MAX_YEAR {
      AnnualReachesZero(year);
      AnnualReachesZero(MAX_YEAR);
    }
  }

  /** Summing a constant stretch. */
  lemma {:induction false} SumConstant(f: nat -> nat, start: nat, n: nat, c: nat)
    requires forall h: nat :: start <= h < start + n ==> f(h) == c
    ensures Sum(f, start + n) == Sum(f, start) + n * c
  {
    if n > 0 {
      SumConstant(f, start, n - 1, c);
      assert f(start + (n - 1)) == c;
      OneMore(n - 1, c);
    }
  }

  /** In one year a quantity is paid per block at a fixed rate that respects the year's budget. */
  ghost predicate YearWithin(f: nat -> nat, start: nat, rate: nat, budget: nat) {
    && (forall h: nat :: start <= h < start + BLOCKS_PER_YEAR ==> f(h) == rate)
    && BLOCKS_PER_YEAR * rate <= budget
  }

  /** The first height of a year, counted from 0. */
  function YearStart(year: nat): nat {
    if year == 0 then 0 else YearStart(year - 1) + BLOCKS_PER_YEAR
  }

  lemma {:induction false} YearStartIs(year: nat)
    ensures YearStart(year) == year * BLOCKS_PER_YEAR
  {
    if year > 0 {
      YearStartIs(year - 1);
    }
  }

  ghost predicate WithinBudget(f: nat -> nat, rate: nat -> nat, budget: nat -> nat) {
    forall y: nat :: YearWithin(f, YearStart(y), rate(y), budget(y))
  }

  /** Part of a year, or all of it, stays within that year's budget. */
  lemma PartOfYear(f: nat -> nat, start: nat, used: nat, rate: nat, budget: nat)
    requires YearWithin(f, start, rate, budget) && used <= BLOCKS_PER_YEAR
    ensures Sum(f, start + used) <= Sum(f, start) + budget
  {
    SumConstant(f, start, used, rate);
    MulMonotone(used, BLOCKS_PER_YEAR, rate);
  }

  /** Any number of blocks stays within the budget of the years they reach into. */
  lemma {:induction false} BlocksWithinBudget(f: nat -> nat, rate: nat -> nat, budget: nat -> nat, years: nat,
                                              used: nat)
    requires WithinBudget(f, rate, budget) && used <= BLOCKS_PER_YEAR
    ensures Sum(f, YearStart(years) + used) <= Sum(budget, years + 1)
  {
    PartOfYear(f, YearStart(years), used, rate(years), budget(years));
    if years > 0 {
      BlocksWithinBudget(f, rate, budget, years - 1, BLOCKS_PER_YEAR);
    }
  }

  function Rate(index: nat): nat { YearReward(index + 1) }

  function Budget(index: nat): nat { LUX_PER_GRAT * Annual(index + 1) }

  lemma {:induction false} BudgetIsEmission(years: nat)
    ensures Sum(Budget, years) == LUX_PER_GRAT * Cumulative(years)
  {
    if years > 0 {
      BudgetIsEmission(years - 1);
    }
  }

  lemma RewardsWithinBudget()
    ensures WithinBudget(BlockReward, Rate, Budget)
  {
    forall y: nat ensures YearWithin(BlockReward, YearStart(y), Rate(y), Budget(y)) {
      YearStartIs(y);
      forall h: nat | YearStart(y) <= h < YearStart(y) + BLOCKS_PER_YEAR
        ensures BlockReward(h) == Rate(y)
      {
        assert h / BLOCKS_PER_YEAR == y;
        RewardOfYear(h);
      }
      YearWithinEmission(y + 1);
    }
  }

  /** For every chain length the rewards paid stay strictly below the mining supply. */
  lemma SupplyCap(length: nat)
    ensures TotalRewards(length) < LUX_PER_GRAT * TOTAL_MINING_SUPPLY_GRAT
  {
    var years, used := length / BLOCKS_PER_YEAR, length % BLOCKS_PER_YEAR;
    assert Sum(BlockReward, length) <= Sum(Budget, years + 1) by {
      YearStartIs(years);
      assert length == YearStart(years) + used;
      RewardsWithinBudget();
      BlocksWithinBudget(BlockReward, Rate, Budget, years, used);
    }
    BudgetIsEmission(years + 1);
    CumulativeBelowSupply(years + 1);
  }

  lemma FullYear(f: nat -> nat, start: nat, rate: nat, budget: nat)
    requires YearWithin(f, start, rate, budget)
    ensures Sum(f, start + BLOCKS_PER_YEAR) == Sum(f, start) + BLOCKS_PER_YEAR * rate
  {
    SumConstant(f, start, BLOCKS_PER_YEAR, rate);
  }

  lemma YearOfRewards(year: nat)
    requires year > 0
    ensures TotalRewards(YearStart(year)) == TotalRewards(YearStart(year - 1)) + BLOCKS_PER_YEAR * YearReward(year)
  {
    RewardsWithinBudget();
    FullYear(BlockReward, YearStart(year - 1), Rate(year - 1), Budget(year - 1));
  }

  /** After any number of full years the chain has paid what these years emit, but for less than 372
      coins a year. */
  lemma {:induction false} YearsPayNearlyAll(years: nat)
    ensures LUX_PER_GRAT * Cumulative(years) <= TotalRewards(YearStart(years)) + years * 372_000_000
  {
    if years > 0 {
      YearsPayNearlyAll(years - 1);
      YearOfRewards(years);
      YearPaysNearlyAll(years);
    }
  }
}
