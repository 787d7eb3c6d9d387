/** Levelling arithmetic: `xpNeeded` (index.js:72-74) and the loop that turns
    accumulated XP into levels, run after a chat message (index.js:197-206) and
    by the mod-only `/givexp` command (index.js:1208-1220). */
module Levels {

  /** XP needed to go from `level` to `level + 1`. */
  function XpNeeded(level: int): int { 100 + (level - 1) * 50 }

  /** XP spent in total to climb from level 1 to `level`. */
  function XpToReach(level: int): int
    requires level >= 1
  {
    if level == 1 then 0 else XpToReach(level - 1) + XpNeeded(level - 1)
  }

  /** The climb to `level` costs 25·(level−1)·(level+2) XP. */
  lemma {:induction false} XpToReachClosedForm(level: int)
    requires level >= 1
    ensures XpToReach(level) == 25 * (level - 1) * (level + 2)
  {
    if level > 1 {
      XpToReachClosedForm(level - 1);
      calc {
        XpToReach(level);
        25 * (level - 2) * (level + 1) + (100 + (level - 2) * 50);
        { assert 25 * (level - 2) * (level + 1) == 25 * (level * level - level - 2); }
        25 * (level * level - level - 2) + 50 * level;
        25 * (level * level + level - 2);
        { assert 25 * (level - 1) * (level + 2) == 25 * (level * level + level - 2); }
        25 * (level - 1) * (level + 2);
      }
    }
  }

  /** Reaching a higher level always costs at least one more level's worth. */
  lemma {:induction false} XpToReachGrows(a: int, b: int)
    requires 1 <= a < b
    ensures XpToReach(a) + XpNeeded(a) <= XpToReach(b)
    decreases b - a
  {
    if a + 1 < b {
      XpToReachGrows(a + 1, b);
    }
  }

  /** The pair (xp, level) left by the carry loop is determined by the total
      XP earned: two pairs with the same total and xp below the next level's
      requirement are equal. */
  lemma CarryResultUnique(x1: int, l1: int, x2: int, l2: int)
    requires l1 >= 1 && l2 >= 1
    requires 0 <= x1 < XpNeeded(l1) && 0 <= x2 < XpNeeded(l2)
    requires x1 + XpToReach(l1) == x2 + XpToReach(l2)
    ensures l1 == l2 && x1 == x2
  {
    if l1 < l2 {
      XpToReachGrows(l1, l2);
    } else if l2 < l1 {
      XpToReachGrows(l2, l1);
    }
  }

  /** A member's XP record (`data.users[id]`), updated in place. */
  class UserRecord {
    var xp: int
    var level: int
    var lastXpAt: int

    /** `ensureUser` creates a record at level 1 with no XP. */
    constructor ()
      ensures xp == 0 && level == 1 && lastXpAt == 0
    {
      xp, level, lastXpAt := 0, 1, 0;
    }

    /** The carry loop: while the XP covers the next level, pay for it and
        go up one level. No XP is lost or created, and at the end the XP left
        is below the next level's requirement. */
    method ProcessLevelUps()
      requires level >= 1
      modifies this`xp, this`level
      ensures level >= old(level)
      ensures xp < XpNeeded(level)
      ensures old(xp) >= 0 ==> xp >= 0
      ensures xp + XpToReach(level) == old(xp) + XpToReach(old(level))
      ensures old(xp) < XpNeeded(old(level)) ==> xp == old(xp) && level == old(level)
    {
      while xp >= XpNeeded(level)
        invariant level >= old(level)
        invariant old(xp) >= 0 ==> xp >= 0
        invariant xp + XpToReach(level) == old(xp) + XpToReach(old(level))
        invariant old(xp) < XpNeeded(old(level)) ==> xp == old(xp) && level == old(level)
        decreases xp
      {
        xp := xp - XpNeeded(level);
        level := level + 1;
      }
    }

    /** `/givexp`: a zero amount is refused; otherwise the XP moves by
        `amount`, never below 0, and the carry loop runs. */
    method GiveXp(amount: int) returns (ok: bool)
      requires level >= 1
      modifies this`xp, this`level
      ensures ok <==> amount != 0
      ensures !ok ==> xp == old(xp) && level == old(level)
      ensures ok ==> var start := if old(xp) + amount < 0 then 0 else old(xp) + amount;
                     level >= old(level) && 0 <= xp < XpNeeded(level)
                     && xp + XpToReach(level) == start + XpToReach(old(level))
    {
      if amount == 0 {
        return false;
      }
      xp := if xp + amount < 0 then 0 else xp + amount;
      ProcessLevelUps();
      ok := true;
    }
  }
}
