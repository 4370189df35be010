/** The block rewards of a shard (consensus/reward.go). */
module Rewards {

  /** Reward eras of about a year each. */
  const ERA: nat := 3150000
  const WEN_PER_SCDO: nat := 100000000
  const SHARDS: nat := 4

  /** Rewards over all shards in the eras of the table, then the tail reward for one more era. */
  const TABLE: seq<nat> := [24, 16, 12, 10, 8, 8, 6, 6]
  const TAIL: nat := 6

  /** What a block of the era pays in one shard, in wen. */
  function EraReward(era: nat): nat {
    if era < |TABLE| then TABLE[era] * WEN_PER_SCDO / SHARDS
    else if era == |TABLE| then TAIL * WEN_PER_SCDO / SHARDS
    else 0
  }

  /** GetReward */
  function GetReward(height: nat): nat {
    EraReward(height / ERA)
  }

  /** All rewards below the given height. */
  ghost function RewardsBelow(height: nat): nat {
    if height == 0 then 0 else RewardsBelow(height - 1) + GetReward(height - 1)
  }

  /** The per-block rewards of all eras before `era`. */
  function ErasBefore(era: nat): nat {
    if era == 0 then 0 else ErasBefore(era - 1) + EraReward(era - 1)
  }

  lemma {:induction false} ErasBounded(era: nat)
    ensures ErasBefore(era) <= 24 * WEN_PER_SCDO && (era >= 9 ==> ErasBefore(era) == 24 * WEN_PER_SCDO)
    ensures ErasBefore(era) + EraReward(era) <= 24 * WEN_PER_SCDO
  {
    if era == 0 {
    } else if era <= 9 {
      ErasBounded(era - 1);
      FirstEras();
    } else {
      ErasBounded(era - 1);
    }
  }

  /** The sums of the table: 6, 10, 13, 15.5, 17.5, 19.5, 21, 22.5 and, with the tail, 24 coins a block. */
  lemma FirstEras()
    ensures ErasBefore(1) == 600000000 && ErasBefore(2) == 1000000000 && ErasBefore(3) == 1300000000
    ensures ErasBefore(4) == 1550000000 && ErasBefore(5) == 1750000000 && ErasBefore(6) == 1950000000
    ensures ErasBefore(7) == 2100000000 && ErasBefore(8) == 2250000000 && ErasBefore(9) == 2400000000
  {
    assert ErasBefore(1) == ErasBefore(0) + EraReward(0);
    assert ErasBefore(2) == ErasBefore(1) + EraReward(1);
    assert ErasBefore(3) == ErasBefore(2) + EraReward(2);
    assert ErasBefore(4) == ErasBefore(3) + EraReward(3);
    assert ErasBefore(5) == ErasBefore(4) + EraReward(4);
    assert ErasBefore(6) == ErasBefore(5) + EraReward(5);
    assert ErasBefore(7) == ErasBefore(6) + EraReward(6);
    assert ErasBefore(8) == ErasBefore(7) + EraReward(7);
    assert ErasBefore(9) == ErasBefore(8) + EraReward(8);
  }

  /** Whole eras and the part of the current one. */
  lemma {:induction false} RewardsByEra(height: nat)
    ensures RewardsBelow(height) == ERA * ErasBefore(height / ERA) + height % ERA * EraReward(height / ERA)
  {
    if height > 0 {
      RewardsByEra(height - 1);
      EraStep(height - 1);
    }
  }

  lemma NextHeight(h: nat)
    ensures if h % ERA + 1 < ERA then (h + 1) / ERA == h / ERA && (h + 1) % ERA == h % ERA + 1
      else (h + 1) / ERA == h / ERA + 1 && (h + 1) % ERA == 0
  {
    var e, m := h / ERA, h % ERA;
    assert h == ERA * e + m;
  }

  lemma OneMore(m: nat, r: nat)
    ensures (m + 1) * r == m * r + r
  {
  }

  lemma EraStep(h: nat)
    ensures ERA * ErasBefore((h + 1) / ERA) + (h + 1) % ERA * EraReward((h + 1) / ERA)
      == ERA * ErasBefore(h / ERA) + h % ERA * EraReward(h / ERA) + EraReward(h / ERA)
  {
    var e, m, r := h / ERA, h % ERA, EraReward(h / ERA);
    NextHeight(h);
    OneMore(m, r);
    assert ErasBefore(e + 1) == ErasBefore(e) + r;
    if m + 1 == ERA {
      assert (m + 1) * r == ERA * r;
    }
  }

  lemma PartOfEra(s: nat, r: nat, m: nat, top: nat)
    requires s + r <= top && m < ERA && r > 0
    ensures ERA * s + m * r < ERA * top
  {
    assert (ERA - m) * r > 0;
    assert m * r < ERA * r;
  }

  lemma EraOf(height: nat)
    ensures height >= 9 * ERA <==> height / ERA >= 9
  {
  }

  /** At no height have the rewards of a shard exceeded 24 coins for each block of an era, and they end after nine. */
  lemma RewardsBounded(height: nat)
    ensures RewardsBelow(height) <= 7_560_000_000_000_000
    ensures RewardsBelow(height) == 7_560_000_000_000_000 <==> height >= 28_350_000
  {
    var e, m := height / ERA, height % ERA;
    var s, r := ErasBefore(e), EraReward(e);
    RewardsByEra(height);
    ErasBounded(e);
    EraOf(height);
    if e < 9 {
      PartOfEra(s, r, m, 24 * WEN_PER_SCDO);
    } else {
      assert m * r == 0;
    }
  }
}
