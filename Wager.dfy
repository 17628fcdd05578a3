/**
  * Single-player wagers: the coin toss and the spinning wheel, and the
  * in-memory throttle that keeps a member from wagering on the coin or at
  * blackjack more than once every few seconds.
  */
module Wager {
  import opened Ledger

  const GambleCooldownSeconds := 5

  /**
    * The in-memory throttle: for each account, the time (in seconds) of its
    * last accepted coin toss or blackjack game.
    */
  class Throttle {
    var last: map<Account, int>

    constructor ()
      ensures last == map[]
    {
      last := map[];
    }

    /**
      * Lets a wager through unless the same account had one accepted less
      * than five seconds ago; a wager let through is stamped with `now`.
      */
    method Pass(a: Account, now: int) returns (ok: bool)
      modifies this
      ensures ok <==> a !in old(last) || now - old(last)[a] >= GambleCooldownSeconds
      ensures last == if ok then old(last)[a := now] else old(last)
    {
      if a in last && now - last[a] < GambleCooldownSeconds {
        return false;
      }
      last := last[a := now];
      ok := true;
    }
  }

  datatype Refusal = NonPositiveBet | NotEnoughBalance | SlowDown

  datatype Face = Heads | Tails

  datatype Admission = Admitted | Turned(why: Refusal)

  /**
    * The guard shared by the coin toss and blackjack: turned away, with no
    * balance and no throttle entry changed, for a non-positive bet, a
    * balance below the bet, or a wager within five seconds of the last one;
    * otherwise the throttle is stamped with `now` and the bet is taken.
    */
  method TakeThrottledBet(db: Store, throttle: Throttle, guild: GuildId, user: UserId, bet: int, now: int)
    returns (r: Admission)
    modifies db`balances, throttle
    ensures r == Turned(NonPositiveBet) <==> bet <= 0
    ensures r == Turned(NotEnoughBalance) <==> bet > 0 && old(db.Bal(Account(guild, user))) < bet
    ensures r == Admitted <==>
      && bet > 0 && old(db.Bal(Account(guild, user))) >= bet
      && (Account(guild, user) !in old(throttle.last) || now - old(throttle.last)[Account(guild, user)] >= GambleCooldownSeconds)
    ensures r.Turned? ==> (forall a :: db.Bal(a) == old(db.Bal(a))) && throttle.last == old(throttle.last)
    ensures r.Admitted? ==>
      && throttle.last == old(throttle.last)[Account(guild, user) := now]
      && forall a :: db.Bal(a) == old(db.Bal(a)) - (if a == Account(guild, user) then bet else 0)
    ensures old(db.Sound()) ==> db.Sound()
  {
    if bet <= 0 {
      return Turned(NonPositiveBet);
    }
    var me := Account(guild, user);
    var bal := db.GetBalance(me);
    if bal < bet {
      return Turned(NotEnoughBalance);
    }
    var ok := throttle.Pass(me, now);
    if !ok {
      return Turned(SlowDown);
    }
    db.AddBalance(me, -bet);
    r := Admitted;
  }

  datatype CoinResult = CoinRefused(why: Refusal) | CoinWon | CoinLost

  /**
    * The coin toss: `user` bets `bet` on `pick`; `toss` is the face the coin
    * shows. The bet is taken, and twice the bet is paid back on a match, so
    * the balance moves by exactly +bet or -bet. Refused, with no balance
    * moved, for a non-positive bet, a balance below the bet, or a wager within
    * five seconds of the last one.
    */
  method PlayCoin(db: Store, throttle: Throttle, guild: GuildId, user: UserId, bet: int,
                  pick: Face, toss: Face, now: int)
    returns (r: CoinResult)
    modifies db`balances, throttle
    ensures r == CoinRefused(NonPositiveBet) <==> bet <= 0
    ensures r == CoinRefused(NotEnoughBalance) <==> bet > 0 && old(db.Bal(Account(guild, user))) < bet
    ensures !r.CoinRefused? <==>
      && bet > 0 && old(db.Bal(Account(guild, user))) >= bet
      && (Account(guild, user) !in old(throttle.last) || now - old(throttle.last)[Account(guild, user)] >= GambleCooldownSeconds)
    ensures r.CoinRefused? ==> (forall a :: db.Bal(a) == old(db.Bal(a))) && throttle.last == old(throttle.last)
    ensures !r.CoinRefused? ==>
      && (r == CoinWon <==> pick == toss)
      && throttle.last == old(throttle.last)[Account(guild, user) := now]
      && forall a :: db.Bal(a) == old(db.Bal(a)) + (if a == Account(guild, user) then (if pick == toss then bet else -bet) else 0)
    ensures old(db.Sound()) ==> db.Sound()
  {
    var admission := TakeThrottledBet(db, throttle, guild, user, bet, now);
    if admission.Turned? {
      return CoinRefused(admission.why);
    }
    var me := Account(guild, user);
    if toss == pick {
      db.AddBalance(me, bet * 2);
      r := CoinWon;
    } else {
      r := CoinLost;
    }
  }

  /** The wheel's multipliers, in halves: 0x, 0.5x, 1x, 2x, 5x, 10x. */
  const WheelHalves: seq<int> := [0, 1, 2, 4, 10, 20]

  /** The probability of each multiplier, per mille. */
  const WheelPerMille: seq<int> := [200, 300, 250, 150, 80, 20]

  /** The cumulative upper bound of each multiplier's band, per mille. */
  const WheelBounds: seq<int> := [200, 500, 750, 900, 980, 1000]

  /** The probabilities add up to one and each band ends at the running total of the probabilities. */
  lemma WheelTable()
    ensures |WheelHalves| == |WheelPerMille| == |WheelBounds| == 6
    ensures WheelBounds[0] == WheelPerMille[0]
    ensures forall i :: 0 < i < 6 ==> WheelBounds[i] == WheelBounds[i - 1] + WheelPerMille[i]
    ensures WheelBounds[5] == 1000
  {
  }

  /**
    * A draw num/den (a number in [0, 1)) lands in `slot` when it is at most
    * that slot's cumulative bound and above every earlier bound: the first
    * band whose upper bound, inclusive, reaches the draw.
    */
  predicate LandsIn(num: int, den: int, slot: int)
  {
    && 0 <= slot < 6
    && num * 1000 <= WheelBounds[slot] * den
    && forall j :: 0 <= j < slot ==> num * 1000 > WheelBounds[j] * den
  }

  /** Every draw lands in at most one band. */
  lemma LandsInUnique(num: int, den: int, s1: int, s2: int)
    requires LandsIn(num, den, s1) && LandsIn(num, den, s2)
    ensures s1 == s2
  {
  }

  /** The bounds are inclusive: a draw of exactly 0.2 lands in the first band (0x). */
  lemma DrawOfOneFifth()
    ensures LandsIn(1, 5, 0)
  {
  }

  /** Only draws above 0.98 reach the 10x band. */
  lemma TopBand(num: int, den: int)
    requires LandsIn(num, den, 5)
    ensures num * 1000 > 980 * den
  {
    assert WheelBounds[4] == 980;
  }

  /**
    * Spins the wheel for the draw num/den: walks the table adding up the
    * probabilities and stops at the first band whose running total reaches
    * the draw. Returns that band and its multiplier in halves.
    */
  method Spin(num: int, den: int) returns (slot: int, halves: int)
    requires 0 <= num < den
    ensures LandsIn(num, den, slot)
    ensures halves == WheelHalves[slot]
  {
    var acc := 0;
    var i := 0;
    var found := false;
    slot, halves := 0, 0;
    while i < |WheelPerMille| && !found
      invariant 0 <= i <= 6
      invariant !found ==> i < 6
      invariant !found ==> acc == (if i == 0 then 0 else WheelBounds[i - 1])
      invariant !found ==> forall j :: 0 <= j < i ==> num * 1000 > WheelBounds[j] * den
      invariant found ==> LandsIn(num, den, slot) && halves == WheelHalves[slot]
    {
      acc := acc + WheelPerMille[i];
      if num * 1000 <= acc * den {
        slot, halves, found := i, WheelHalves[i], true;
      }
      i := i + 1;
    }
  }

  /**
    * The wheel's payout: the bet times the multiplier, rounded down (the
    * multiplier is given in halves).
    */
  function Winnings(bet: int, halves: int): (w: int)
    requires bet > 0 && halves >= 0
    ensures 2 * w <= bet * halves < 2 * w + 2
    ensures w >= 0
  {
    bet * halves / 2
  }

  datatype WheelResult = WheelRefused(why: Refusal) | Landed(slot: int, winnings: int)

  /**
    * The spinning wheel: `user` bets `bet`; num/den is the random draw in
    * [0, 1). The bet is taken, the wheel picks the first band whose
    * cumulative bound reaches the draw, and the bet times that band's
    * multiplier (rounded down) is paid back. Refused, with no balance moved,
    * for a non-positive bet or a balance below the bet. The wheel is not
    * throttled.
    */
  method PlayWheel(db: Store, guild: GuildId, user: UserId, bet: int, num: int, den: int)
    returns (r: WheelResult)
    requires 0 <= num < den
    modifies db`balances
    ensures r == WheelRefused(NonPositiveBet) <==> bet <= 0
    ensures r == WheelRefused(NotEnoughBalance) <==> bet > 0 && old(db.Bal(Account(guild, user))) < bet
    ensures r.Landed? <==> bet > 0 && old(db.Bal(Account(guild, user))) >= bet
    ensures r.WheelRefused? ==> forall a :: db.Bal(a) == old(db.Bal(a))
    ensures r.Landed? ==>
      && LandsIn(num, den, r.slot)
      && r.winnings == Winnings(bet, WheelHalves[r.slot])
      && forall a :: db.Bal(a) == old(db.Bal(a)) + (if a == Account(guild, user) then r.winnings - bet else 0)
    ensures old(db.Sound()) ==> db.Sound()
  {
    if bet <= 0 {
      return WheelRefused(NonPositiveBet);
    }
    var me := Account(guild, user);
    var bal := db.GetBalance(me);
    if bal < bet {
      return WheelRefused(NotEnoughBalance);
    }
    db.AddBalance(me, -bet);
    var slot, halves := Spin(num, den);
    var winnings := Winnings(bet, halves);
    if winnings > 0 {
      db.AddBalance(me, winnings);
    }
    r := Landed(slot, winnings);
  }
}
