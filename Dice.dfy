/**
  * The multiplayer dice pot: one session per channel. A start takes the
  * starter's bet and opens the session; during the join window each join
  * takes the same bet from the joiner; at the end of the window the session
  * is removed and either refunds a lone starter or splits the pot among the
  * highest rollers, the remainder of the split going to nobody.
  */
module Dice {
  import opened Ledger

  type ChannelId = int

  /**
    * An open session: the server it belongs to, the entry bet, the players
    * in the order they entered (the starter first) with the stake of each,
    * and when it started.
    */
  datatype Session = Session(guild: GuildId, bet: int, players: seq<UserId>, stakes: seq<int>, startedAt: int)

  /** No member appears twice. */
  predicate Distinct(s: seq<UserId>)
  {
    forall i, j :: 0 <= i < j < |s| ==> s[i] != s[j]
  }

  /**
    * Every session's bet is positive, it has at least its starter, who
    * staked the bet, no one plays twice, and every stake is positive. A
    * later player's stake is the entry bet of the join button they pressed,
    * which need not be this session's bet (see `Join`).
    */
  predicate WellFormed(s: Session)
  {
    && s.bet > 0
    && 1 <= |s.players| == |s.stakes|
    && s.stakes[0] == s.bet
    && Distinct(s.players)
    && forall i :: 0 <= i < |s.stakes| ==> s.stakes[i] > 0
  }

  /** The highest of a non-empty sequence of rolls. */
  function Highest(rolls: seq<int>): (m: int)
    requires |rolls| > 0
    ensures m in rolls
    ensures forall i :: 0 <= i < |rolls| ==> rolls[i] <= m
  {
    if |rolls| == 1 then rolls[0]
    else
      var m' := Highest(rolls[1..]);
      assert forall i :: 1 <= i < |rolls| ==> rolls[i] == rolls[1..][i - 1];
      if rolls[0] >= m' then rolls[0] else m'
  }

  /** The players whose roll equals `high`, in playing order; `rolls[i]` is the roll of `players[i]`. */
  function RolledExactly(players: seq<UserId>, rolls: seq<int>, high: int): (w: seq<UserId>)
    requires |players| == |rolls|
    ensures |w| <= |players|
    ensures forall u :: u in w <==> exists i :: 0 <= i < |players| && players[i] == u && rolls[i] == high
    ensures Distinct(players) ==> Distinct(w)
  {
    if |players| == 0 then []
    else
      var w' := RolledExactly(players[1..], rolls[1..], high);
      assert forall i :: 1 <= i < |players| ==> players[i] == players[1..][i - 1] && rolls[i] == rolls[1..][i - 1];
      if rolls[0] == high then
        assert Distinct(players) ==> Distinct(players[1..]) && players[0] !in w';
        [players[0]] + w'
      else w'
  }

  /** The sum of the stakes. */
  function Sum(s: seq<int>): (total: int)
    ensures (forall i :: 0 <= i < |s| ==> s[i] >= 0) ==> total >= 0
  {
    if |s| == 0 then 0 else s[0] + Sum(s[1..])
  }

  /** A non-empty pot of positive stakes is positive, and at least each stake in it. */
  lemma {:induction false} SumPositive(s: seq<int>)
    requires |s| > 0 && forall i :: 0 <= i < |s| ==> s[i] > 0
    ensures Sum(s) > 0
    ensures forall i :: 0 <= i < |s| ==> s[i] <= Sum(s)
  {
    if |s| > 1 {
      SumPositive(s[1..]);
      assert forall i :: 1 <= i < |s| ==> s[i] == s[1..][i - 1];
    }
  }

  /** When every stake is the bet, the pot is the bet times the number of stakes. */
  lemma {:induction false} SumOfEqualStakes(s: seq<int>, bet: int)
    requires forall i :: 0 <= i < |s| ==> s[i] == bet
    ensures Sum(s) == bet * |s|
  {
    if |s| > 0 {
      SumOfEqualStakes(s[1..], bet);
    }
  }

  /** Someone always rolls the highest roll: the winners are never empty. */
  lemma HighestIsRolled(players: seq<UserId>, rolls: seq<int>)
    requires |players| == |rolls| > 0
    ensures |RolledExactly(players, rolls, Highest(rolls))| > 0
  {
    var high := Highest(rolls);
    var i :| 0 <= i < |rolls| && rolls[i] == high;
    assert players[i] in RolledExactly(players, rolls, high);
  }

  /**
    * Splitting a pot evenly among n winners pays each `pot / n`; the total
    * paid never exceeds the pot and what is left over is less than n.
    */
  lemma SplitRemainder(pot: int, n: int)
    requires pot >= 0 && n > 0
    ensures 0 <= n * (pot / n) <= pot
    ensures pot - n * (pot / n) == pot % n < n
  {
  }

  /** The dice sessions in progress, by channel. */
  class DiceTable {
    var sessions: map<ChannelId, Session>

    ghost predicate Valid()
      reads this
    {
      forall ch :: ch in sessions ==> WellFormed(sessions[ch])
    }

    constructor ()
      ensures Valid() && sessions == map[]
    {
      sessions := map[];
    }
  }

  datatype Refusal = NonPositiveBet | NotEnoughBalance | AlreadyRunning | AlreadyJoined | NoSession

  datatype Outcome = Done | Refused(why: Refusal) | Ignored

  /**
    * Starts a dice game in `channel` with entry bet `bet`. Refused, with no
    * balance or session changed, for a non-positive bet, a balance below the
    * bet, or a channel that already has a session. Otherwise the session is
    * opened with the starter as its only player and the bet is taken from
    * the starter.
    */
  method Start(db: Store, table: DiceTable, guild: GuildId, channel: ChannelId, starter: UserId, bet: int, now: int)
    returns (r: Outcome)
    requires table.Valid()
    modifies db`balances, table
    ensures table.Valid()
    ensures r == Refused(NonPositiveBet) <==> bet <= 0
    ensures r == Refused(NotEnoughBalance) <==> bet > 0 && old(db.Bal(Account(guild, starter))) < bet
    ensures r == Refused(AlreadyRunning) <==> bet > 0 && old(db.Bal(Account(guild, starter))) >= bet && channel in old(table.sessions)
    ensures r == Done <==> bet > 0 && old(db.Bal(Account(guild, starter))) >= bet && channel !in old(table.sessions)
    ensures !r.Done? ==> (forall a :: db.Bal(a) == old(db.Bal(a))) && table.sessions == old(table.sessions)
    ensures r.Done? ==>
      && table.sessions == old(table.sessions)[channel := Session(guild, bet, [starter], [bet], now)]
      && forall a :: db.Bal(a) == old(db.Bal(a)) - (if a == Account(guild, starter) then bet else 0)
    ensures old(db.Sound()) ==> db.Sound()
  {
    if bet <= 0 {
      return Refused(NonPositiveBet);
    }
    var bal := db.GetBalance(Account(guild, starter));
    if bal < bet {
      return Refused(NotEnoughBalance);
    }
    if channel in table.sessions {
      return Refused(AlreadyRunning);
    }
    table.sessions := table.sessions[channel := Session(guild, bet, [starter], [bet], now)];
    db.AddBalance(Account(guild, starter), -bet);
    r := Done;
  }

  /**
    * A join button posted for `channel` with entry bet `entry`, pressed by
    * `user` in channel `from`. The button remembers the entry bet of the
    * session that posted it, but finds the session through the channel: a
    * button left over from an earlier session in the same channel joins the
    * current one at the old entry bet. A press from another channel is
    * ignored; with no session left the press fails. Refused, with nothing
    * changed, when the user already plays or their balance is below the
    * entry bet. Otherwise the entry bet is taken from the user and they are
    * added, last, with that stake.
    */
  method Join(db: Store, table: DiceTable, channel: ChannelId, entry: int, from: ChannelId, user: UserId)
    returns (r: Outcome)
    requires table.Valid()
    requires entry > 0  // the bet of a session that was started, hence positive
    modifies db`balances, table
    ensures table.Valid()
    ensures r == Ignored <==> from != channel
    ensures r == Refused(NoSession) <==> from == channel && channel !in old(table.sessions)
    ensures r == Refused(AlreadyJoined) <==>
      from == channel && channel in old(table.sessions) && user in old(table.sessions)[channel].players
    ensures r == Refused(NotEnoughBalance) <==>
      && from == channel && channel in old(table.sessions)
      && var s := old(table.sessions)[channel];
         user !in s.players && old(db.Bal(Account(s.guild, user))) < entry
    ensures r == Done <==>
      && from == channel && channel in old(table.sessions)
      && var s := old(table.sessions)[channel];
         user !in s.players && old(db.Bal(Account(s.guild, user))) >= entry
    ensures !r.Done? ==> (forall a :: db.Bal(a) == old(db.Bal(a))) && table.sessions == old(table.sessions)
    ensures r.Done? ==>
      var s := old(table.sessions)[channel];
      && table.sessions == old(table.sessions)[channel := s.(players := s.players + [user], stakes := s.stakes + [entry])]
      && forall a :: db.Bal(a) == old(db.Bal(a)) - (if a == Account(s.guild, user) then entry else 0)
    ensures old(db.Sound()) ==> db.Sound()
  {
    if from != channel {
      return Ignored;
    }
    if channel !in table.sessions {
      return Refused(NoSession);
    }
    var s := table.sessions[channel];
    if user in s.players {
      return Refused(AlreadyJoined);
    }
    var bal := db.GetBalance(Account(s.guild, user));
    if bal < entry {
      return Refused(NotEnoughBalance);
    }
    db.AddBalance(Account(s.guild, user), -entry);
    table.sessions := table.sessions[channel := s.(players := s.players + [user], stakes := s.stakes + [entry])];
    r := Done;
  }

  datatype Settlement =
    | NothingToSettle
    | Refunded(user: UserId, amount: int)
    | Paid(high: int, winners: seq<UserId>, prizeEach: int, pot: int)

  /** Pays `prize` once to each of the distinct `winners` in `guild`. */
  method PayEach(db: Store, guild: GuildId, winners: seq<UserId>, prize: int)
    requires Distinct(winners) && prize >= 0
    modifies db`balances
    ensures forall a :: db.Bal(a) == old(db.Bal(a)) + (if a.guild == guild && a.user in winners then prize else 0)
    ensures old(db.Sound()) ==> db.Sound()
  {
    for k := 0 to |winners|
      invariant forall a :: db.Bal(a) == old(db.Bal(a)) + (if a.guild == guild && a.user in winners[..k] then prize else 0)
      invariant old(db.Sound()) ==> db.Sound()
    {
      assert winners[..k + 1] == winners[..k] + [winners[k]];
      assert winners[k] !in winners[..k];
      db.AddBalance(Account(guild, winners[k]), prize);
    }
    assert winners[..|winners|] == winners;
  }

  /**
    * The end of the join window in `channel`; `rolls[i]` is the die of the
    * session's i-th player. The session is removed whatever happens. A lone
    * starter gets the bet back. Otherwise the pot (the sum of all stakes) is
    * split evenly among the players with the highest roll, rounding down;
    * the remainder is paid to nobody and no one else is paid.
    */
  method Settle(db: Store, table: DiceTable, channel: ChannelId, rolls: seq<int>)
    returns (r: Settlement)
    requires table.Valid()
    requires channel in table.sessions ==> |rolls| == |table.sessions[channel].players|
    modifies db`balances, table
    ensures table.Valid()
    ensures table.sessions == old(table.sessions) - {channel}
    ensures r == NothingToSettle <==> channel !in old(table.sessions)
    ensures r.NothingToSettle? ==> forall a :: db.Bal(a) == old(db.Bal(a))
    ensures r.Refunded? ==>
      var s := old(table.sessions)[channel];
      && s.players == [r.user] && r.amount == s.bet
      && forall a :: db.Bal(a) == old(db.Bal(a)) + (if a == Account(s.guild, r.user) then s.bet else 0)
    ensures r.Paid? ==>
      var s := old(table.sessions)[channel];
      && |s.players| >= 2
      && r.pot == Sum(s.stakes) > 0
      && ((forall i :: 0 <= i < |s.stakes| ==> s.stakes[i] == s.bet) ==> r.pot == s.bet * |s.players|)
      && (forall i :: 0 <= i < |rolls| ==> rolls[i] <= r.high)
      && (forall u :: u in r.winners <==> exists i :: 0 <= i < |rolls| && s.players[i] == u && rolls[i] == r.high)
      && Distinct(r.winners)
      && |r.winners| > 0 && r.prizeEach == r.pot / |r.winners|
      && |r.winners| * r.prizeEach <= r.pot && r.pot - |r.winners| * r.prizeEach < |r.winners|
      && forall a :: db.Bal(a) == old(db.Bal(a)) + (if a.guild == s.guild && a.user in r.winners then r.prizeEach else 0)
    ensures old(db.Sound()) ==> db.Sound()
  {
    if channel !in table.sessions {
      return NothingToSettle;
    }
    var s := table.sessions[channel];
    table.sessions := table.sessions - {channel};
    if |s.players| < 2 {
      db.AddBalance(Account(s.guild, s.players[0]), s.bet);
      return Refunded(s.players[0], s.bet);
    }
    var high := Highest(rolls);
    var winners := RolledExactly(s.players, rolls, high);
    HighestIsRolled(s.players, rolls);
    var pot := Sum(s.stakes);
    SumPositive(s.stakes);
    if forall i :: 0 <= i < |s.stakes| ==> s.stakes[i] == s.bet {
      SumOfEqualStakes(s.stakes, s.bet);
    }
    var prizeEach := pot / |winners|;
    SplitRemainder(pot, |winners|);
    PayEach(db, s.guild, winners, prizeEach);
    r := Paid(high, winners, prizeEach, pot);
  }
}
