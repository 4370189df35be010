/** The difficulty of a block and the checks against its parent (consensus/utils). */
module Difficulty {
  import opened Common

  datatype Header = Header(height: nat, time: nat, difficulty: int)

  const SECOND_FORK_HEIGHT: nat := 2979594

  /** The slowdown factor: one less for each 20 seconds, never below -99; times are cut to 64 bits and may wrap. */
  function Factor(time: nat, parentTime: nat): (x: int)
    ensures -99 <= x <= 1
  {
    var interval := (time % TWO_64 - parentTime % TWO_64) % TWO_64 / 20;
    if 1 - interval < -99 then -99 else 1 - interval
  }

  /** GetDifficult */
  function GetDifficult(time: nat, parent: Header): int {
    if parent.height == 0 then parent.difficulty
    else
      var y := parent.difficulty / (if parent.height < SECOND_FORK_HEIGHT then 2048 else 1024);
      parent.difficulty + Factor(time, parent.time) * y
  }

  /** VerifyHeaderCommon */
  predicate Verified(header: Header, parent: Header) {
    && header.height == parent.height + 1
    && header.time >= parent.time
    && header.difficulty == GetDifficult(header.time, parent)
  }

  /** The factor for `k` whole intervals of 20 seconds. */
  lemma FactorAt(time: nat, parentTime: nat, k: nat)
    requires 20 * k <= (time - parentTime) % TWO_64 < 20 * k + 20
    ensures Factor(time, parentTime) == if k <= 100 then 1 - k else -99
  {
    Difference(time, parentTime);
  }

  /** Cutting both times to 64 bits does not change their 64-bit difference. */
  lemma Difference(a: nat, b: nat)
    ensures (a % TWO_64 - b % TWO_64) % TWO_64 == (a - b) % TWO_64
  {
    var x, y := a % TWO_64, b % TWO_64;
    Shifted(a - b, a / TWO_64 - b / TWO_64, x - y);
  }

  lemma Shifted(c: int, q: int, d: int)
    requires c == q * TWO_64 + d
    ensures c % TWO_64 == d % TWO_64
  {
  }

  /**
    The parent's difficulty moves by a 2048th of it, from the fork on by a 1024th: one such part up within 20
    seconds, none within 40, then one more down for each further 20 seconds, and at most 99 down. The block after
    the genesis keeps its difficulty.
   */
  lemma FollowsGap(time: nat, parent: Header, k: nat, part: int)
    requires 20 * k <= (time - parent.time) % TWO_64 < 20 * k + 20
    requires part == parent.difficulty / (if parent.height < SECOND_FORK_HEIGHT then 2048 else 1024)
    ensures parent.height == 0 ==> GetDifficult(time, parent) == parent.difficulty
    ensures parent.height > 0 && k <= 100 ==> GetDifficult(time, parent) == parent.difficulty + (1 - k) * part
    ensures parent.height > 0 && k > 100 ==> GetDifficult(time, parent) == parent.difficulty - 99 * part
  {
    FactorAt(time, parent.time, k);
  }

  /** A header is accepted exactly at the next height, at no earlier time and with the difficulty for that time. */
  lemma VerifiedMeans(header: Header, parent: Header, k: nat, part: int)
    requires 20 * k <= (header.time - parent.time) % TWO_64 < 20 * k + 20
    requires part == parent.difficulty / (if parent.height < SECOND_FORK_HEIGHT then 2048 else 1024)
    ensures Verified(header, parent) <==>
      && header.height == parent.height + 1 && parent.time <= header.time
      && header.difficulty - parent.difficulty ==
         if parent.height == 0 then 0 else if k <= 100 then (1 - k) * part else -99 * part
  {
    FollowsGap(header.time, parent, k, part);
  }

  /** The longer after its parent, the lower the difficulty of a block. */
  lemma LongerIsEasier(time: nat, later: nat, parent: Header)
    requires parent.difficulty >= 0 && (time - parent.time) % TWO_64 <= (later - parent.time) % TWO_64
    ensures GetDifficult(later, parent) <= GetDifficult(time, parent)
  {
    if parent.height > 0 {
      var k, n := (time - parent.time) % TWO_64 / 20, (later - parent.time) % TWO_64 / 20;
      FactorAt(time, parent.time, k);
      FactorAt(later, parent.time, n);
      var part := parent.difficulty / (if parent.height < SECOND_FORK_HEIGHT then 2048 else 1024);
      Scale(Factor(later, parent.time), Factor(time, parent.time), part);
    }
  }

  lemma StaysPositive(time: nat, parent: Header)
    requires parent.difficulty >= 1
    ensures GetDifficult(time, parent) >= 1
    ensures GetDifficult(time, parent) >= parent.difficulty - parent.difficulty / 10
    ensures GetDifficult(time, parent) <= parent.difficulty + parent.difficulty / 1024
  {
    var p := parent.difficulty;
    if parent.height > 0 {
      var d := if parent.height < SECOND_FORK_HEIGHT then 2048 else 1024;
      var x, y := Factor(time, parent.time), p / d;
      assert y * 1024 <= p;
      assert -99 * y <= x * y <= y by {
        Scale(-99, x, y);
        Scale(x, 1, y);
      }
    }
  }

  lemma Scale(a: int, b: int, y: int)
    requires a <= b && y >= 0
    ensures a * y <= b * y
  {
  }

  /** Along every verified chain the difficulty is at least 1, so the total difficulty grows with every block. */
  lemma {:induction false} ChainDifficulty(chain: seq<Header>, i: nat)
    requires i < |chain| && chain[0].difficulty >= 1
    requires forall k :: 0 < k < |chain| ==> Verified(chain[k], chain[k - 1])
    ensures chain[i].difficulty >= 1 && chain[i].height == chain[0].height + i
  {
    if i > 0 {
      ChainDifficulty(chain, i - 1);
      StaysPositive(chain[i].time, chain[i - 1]);
      assert Verified(chain[i], chain[i - 1]);
    }
  }
}
