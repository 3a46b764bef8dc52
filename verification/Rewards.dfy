/** The reward schedule of block_rewards.py, and what it adds up to. */
module Rewards {

  const BYTE_PER_HDDCOIN: nat := 1_000_000_000_000
  const BLOCKS_PER_YEAR: nat := 1_681_920

  function FarmerReward(height: nat): nat {
    if height == 0 then 437_500 * BYTE_PER_HDDCOIN
    else if height < 3 * BLOCKS_PER_YEAR then BYTE_PER_HDDCOIN / 4
    else if height < 6 * BLOCKS_PER_YEAR then BYTE_PER_HDDCOIN / 8
    else if height < 9 * BLOCKS_PER_YEAR then BYTE_PER_HDDCOIN / 16
    else if height < 12 * BLOCKS_PER_YEAR then BYTE_PER_HDDCOIN / 32
    else BYTE_PER_HDDCOIN / 64
  }

  /** The pool earns 7/8 and the farmer 1/8 of every block. */
  function PoolReward(height: nat): (r: nat)
    ensures r == 7 * FarmerReward(height)
  {
    if height == 0 then 3_062_500 * BYTE_PER_HDDCOIN
    else if height < 3 * BLOCKS_PER_YEAR then 1_750_000_000_000
    else if height < 6 * BLOCKS_PER_YEAR then 875_000_000_000
    else if height < 9 * BLOCKS_PER_YEAR then 437_500_000_000
    else if height < 12 * BLOCKS_PER_YEAR then 218_750_000_000
    else 109_375_000_000
  }

  /** Everything the schedule pays for heights 0 .. n - 1. */
  function Schedule(n: nat): nat {
    if n == 0 then 0 else Schedule(n - 1) + PoolReward(n - 1) + FarmerReward(n - 1)
  }

  function Clamp(x: int, hi: nat): nat {
    if x < 0 then 0 else if x > hi then hi else x
  }

  /** The prefarm, then four three-year eras each paying half of the one before, then a tail. */
  function ScheduleClosedForm(n: nat): nat {
    var era := 5_045_760;
    if n == 0 then 0 else
      3_500_000_000_000_000_000
      + 2_000_000_000_000 * Clamp(n - 1, era - 1)
      + 1_000_000_000_000 * Clamp(n - era, era)
      + 500_000_000_000 * Clamp(n - 2 * era, era)
      + 250_000_000_000 * Clamp(n - 3 * era, era)
      + 125_000_000_000 * Clamp(n - 4 * era, n)
  }

  lemma {:induction false} ScheduleIsClosedForm(n: nat)
    ensures Schedule(n) == ScheduleClosedForm(n)
  {
    if n > 0 {
      ScheduleIsClosedForm(n - 1);
    }
  }
}
