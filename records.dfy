/** The per-player and per-group records the data store keeps beside the claims: the
    soft-mute flags (`softMuteMap`) and the bonus claim blocks granted to permission
    groups (`permissionToBonusBlocksMap`). Their files on disk are not modelled. */
module PlayerRecords {
  import opened JavaInt
  import opened Uuids

  /** `isSoftMuted(playerID)`: the player has an entry and it is `true`. */
  predicate SoftMuted(m: map<Uuid, bool>, p: Uuid)
  {
    p in m && m[p]
  }

  /** The flags after `toggleSoftMute(playerID)`: the player's entry is set to the
      opposite of what `isSoftMuted` said. */
  function Toggled(m: map<Uuid, bool>, p: Uuid): (m': map<Uuid, bool>)
    ensures SoftMuted(m', p) == !SoftMuted(m, p)
    ensures forall q :: q != p ==> SoftMuted(m', q) == SoftMuted(m, q)
    ensures m'.Keys == m.Keys + {p}
  {
    m[p := !SoftMuted(m, p)]
  }

  /** Toggling a player twice leaves every player's flag as it was. */
  lemma ToggledTwice(m: map<Uuid, bool>, p: Uuid, q: Uuid)
    ensures SoftMuted(Toggled(Toggled(m, p), p), q) == SoftMuted(m, q)
  {
    if q == p {
      assert SoftMuted(Toggled(Toggled(m, p), p), p) == !SoftMuted(Toggled(m, p), p);
    }
  }

  /** A group's bonus blocks: its entry, 0 when it has none. */
  function BonusOf(m: map<string, int32>, group: string): int32
  {
    if group in m then m[group] else 0
  }

  /** The table after `adjustGroupBonusBlocks(groupName, amount)`: the group's total moves
      by the amount, in `int` arithmetic, and every other group's entry stays. */
  function BonusAdjusted(m: map<string, int32>, group: string, amount: int32): (m': map<string, int32>)
    ensures group in m' && m'[group] == Wrap32(BonusOf(m, group) + amount)
    ensures forall g :: g != group ==> (g in m' <==> g in m) && (g in m ==> m'[g] == m[g])
  {
    Add32Wraps(BonusOf(m, group), amount);
    m[group := Add32(BonusOf(m, group), amount)]
  }

  /** Two adjustments of a group add up: the total is the wrapped sum of both amounts. */
  lemma BonusAdjustmentsAdd(m: map<string, int32>, group: string, a: int32, b: int32)
    ensures BonusOf(BonusAdjusted(BonusAdjusted(m, group, a), group, b), group)
         == Wrap32(BonusOf(m, group) + a + b)
  {
    var x := BonusOf(m, group);
    var once := Wrap32(x + a);
    assert BonusOf(BonusAdjusted(m, group, a), group) == once;
    assert (once + b - (x + a + b)) % TWO_32 == 0 by {
      assert once + b - (x + a + b) == once - (x + a);
    }
    Wrap32Unique(once + b, x + a + b);
  }
}
