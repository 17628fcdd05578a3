/**
  * Blackjack against the dealer. A game deals from a shuffled deck, two
  * cards to the player and two to the dealer, popping from the end of the
  * deck. The player hits until they stand or bust; on a stand the dealer
  * draws while below 17 and the hands are compared. A natural 21 on the deal
  * ends the game at once.
  */
module Blackjack {
  import opened Ledger
  import opened Cards
  import Wager

  /** The dealer draws while their hand is worth less than this. */
  const DealerStandsOn := 17

  /**
    * The credit of a stand, given the bet and the final hand values: twice
    * the bet when the dealer busts or the player is higher, the bet back on
    * a tie, nothing when the dealer is higher.
    */
  function StandPayout(bet: int, playerValue: int, dealerValue: int): (w: int)
    ensures dealerValue > 21 || playerValue > dealerValue ==> w == 2 * bet
    ensures dealerValue <= 21 && playerValue == dealerValue ==> w == bet
    ensures dealerValue <= 21 && playerValue < dealerValue ==> w == 0
  {
    if dealerValue > 21 || playerValue > dealerValue then 2 * bet
    else if playerValue == dealerValue then bet
    else 0
  }

  /**
    * Against the bet already taken, a stand nets +bet, 0 or -bet, and never
    * pays more than twice the bet.
    */
  lemma StandNet(bet: int, playerValue: int, dealerValue: int)
    requires bet >= 0
    ensures StandPayout(bet, playerValue, dealerValue) - bet in {bet, 0, -bet}
    ensures 0 <= StandPayout(bet, playerValue, dealerValue) <= 2 * bet
  {
  }

  /**
    * The credit of a natural 21: the bet back when the dealer also holds 21,
    * otherwise two and a half times the bet truncated toward zero.
    */
  function NaturalPayout(bet: int, dealerValue: int): (w: int)
    ensures dealerValue == 21 ==> w == bet
    ensures dealerValue != 21 && bet >= 0 ==> 2 * w <= 5 * bet < 2 * w + 2
    ensures dealerValue != 21 && bet < 0 ==> 2 * w - 2 < 5 * bet <= 2 * w
  {
    if dealerValue == 21 then bet
    else if bet >= 0 then 5 * bet / 2
    else -(-5 * bet / 2)
  }

  /** A natural against a dealer without 21 pays at least the stand's win, and at most one half-bet more. */
  lemma NaturalBeatsWin(bet: int, dealerValue: int)
    requires bet >= 0 && dealerValue != 21
    ensures 2 * bet <= NaturalPayout(bet, dealerValue) <= 2 * bet + bet / 2
  {
  }

  /** Every card of the built deck is with the player, with the dealer, or still in the deck. */
  ghost predicate Conserved(player: seq<Card>, dealer: seq<Card>, deck: seq<Card>)
  {
    multiset(player) + multiset(dealer) + multiset(deck) == multiset(OrderedDeck())
  }

  /**
    * While the cards in the two hands are worth less than the whole deck
    * (aces counted as 1), the deck still holds a card.
    */
  lemma CardsLeft(player: seq<Card>, dealer: seq<Card>, deck: seq<Card>)
    requires Conserved(player, dealer, deck)
    requires LowTotal(player) + LowTotal(dealer) < DeckLowTotal
    ensures |deck| > 0
  {
    assert multiset(player + dealer + deck) == multiset(OrderedDeck());
    LowTotalPermutation(player + dealer + deck, OrderedDeck());
    LowTotalConcat(player + dealer, deck);
    LowTotalConcat(player, dealer);
    OrderedDeckLowTotal();
  }

  /** Dealing the top card of the deck to the player keeps every card accounted for. */
  lemma DealToPlayer(player: seq<Card>, dealer: seq<Card>, deck: seq<Card>)
    requires Conserved(player, dealer, deck) && |deck| > 0
    ensures Conserved(player + [deck[|deck| - 1]], dealer, deck[..|deck| - 1])
  {
    assert deck == deck[..|deck| - 1] + [deck[|deck| - 1]];
  }

  /** Dealing the top card of the deck to the dealer keeps every card accounted for. */
  lemma DealToDealer(player: seq<Card>, dealer: seq<Card>, deck: seq<Card>)
    requires Conserved(player, dealer, deck) && |deck| > 0
    ensures Conserved(player, dealer + [deck[|deck| - 1]], deck[..|deck| - 1])
  {
    assert deck == deck[..|deck| - 1] + [deck[|deck| - 1]];
  }

  /** The opening deal from a shuffled deck accounts for every card. */
  lemma OpeningDeal(d: seq<Card>)
    requires IsShuffle(d)
    ensures |d| == DeckSize
    ensures Conserved([d[51], d[50]], [d[49], d[48]], d[..48])
  {
    ShuffleFacts(d);
    assert d == d[..48] + [d[48], d[49]] + [d[50], d[51]];
  }

  /**
    * `hand` and `rest` are what the dealer's `dealer` and the `deck` become
    * when the dealer takes cards one at a time from the top (the end) of the
    * deck, each one while the hand so far is worth less than 17.
    */
  ghost predicate DrewWhileBelow(dealer: seq<Card>, deck: seq<Card>, hand: seq<Card>, rest: seq<Card>)
  {
    && |dealer| <= |hand| && hand[..|dealer|] == dealer
    && |rest| + |hand| == |deck| + |dealer|
    && rest == deck[..|rest|]
    && forall k :: |dealer| <= k < |hand| ==>
         hand[k] == deck[|deck| - 1 - (k - |dealer|)] && HandValue(hand[..k]) < DealerStandsOn
  }

  /** One more draw, taken while the hand is below 17, keeps the relation. */
  lemma DrawOne(dealer: seq<Card>, deck: seq<Card>, hand: seq<Card>, rest: seq<Card>)
    requires DrewWhileBelow(dealer, deck, hand, rest)
    requires HandValue(hand) < DealerStandsOn && |rest| > 0
    ensures DrewWhileBelow(dealer, deck, hand + [rest[|rest| - 1]], rest[..|rest| - 1])
  {
    var hand' := hand + [rest[|rest| - 1]];
    assert hand'[..|hand|] == hand;
    assert hand'[..|dealer|] == dealer;
    forall k | |dealer| <= k < |hand'|
      ensures hand'[k] == deck[|deck| - 1 - (k - |dealer|)] && HandValue(hand'[..k]) < DealerStandsOn
    {
      assert hand'[..k] == hand[..k] || k == |hand|;
    }
  }

  datatype HitResult = HitNotYours | HitIgnored | Busted(value: int) | Drew(value: int)

  datatype StandResult = StandNotYours | StandIgnored | Settled(playerValue: int, dealerValue: int, payout: int)

  class Game {
    const guild: GuildId
    const owner: UserId
    const bet: int
    var deck: seq<Card>
    var player: seq<Card>
    var dealer: seq<Card>
    var finished: bool

    /**
      * The game's invariant: no card is lost or duplicated, and while the
      * game is open the player has not bust and the dealer holds the two
      * cards of the deal.
      */
    ghost predicate Valid()
      reads this
    {
      && Conserved(player, dealer, deck)
      && (!finished ==> HandValue(player) <= 21 && |dealer| == 2)
    }

    /**
      * Deals from `shuffled`, popping from its end: the last two cards to the
      * player, the two before them to the dealer.
      */
    constructor (guild: GuildId, owner: UserId, bet: int, shuffled: seq<Card>)
      requires IsShuffle(shuffled)
      ensures Valid()
      ensures this.guild == guild && this.owner == owner && this.bet == bet && !finished
      ensures |shuffled| == DeckSize
      ensures player == [shuffled[51], shuffled[50]] && dealer == [shuffled[49], shuffled[48]]
      ensures deck == shuffled[..48]
    {
      OpeningDeal(shuffled);
      var d := shuffled;
      this.guild, this.owner, this.bet := guild, owner, bet;
      player := [d[51], d[50]];
      dealer := [d[49], d[48]];
      deck := d[..48];
      finished := false;
      new;
      TwoCardHand(player);
    }

    /**
      * The hit button pressed by `actor`. Refused for anyone but the owner
      * and ignored once the game is over, with nothing changed. Otherwise the
      * top card of the deck goes to the player, and a hand over 21 ends the
      * game. No balance moves: the bet was taken when the game began.
      */
    method Hit(actor: UserId) returns (r: HitResult)
      requires Valid()
      modifies this
      ensures Valid()
      ensures r == HitNotYours <==> actor != owner
      ensures r == HitIgnored <==> actor == owner && old(finished)
      ensures r.HitNotYours? || r.HitIgnored? ==>
        deck == old(deck) && player == old(player) && dealer == old(dealer) && finished == old(finished)
      ensures r.Busted? || r.Drew? ==>
        && |old(deck)| > 0
        && player == old(player) + [old(deck)[|old(deck)| - 1]]
        && deck == old(deck)[..|old(deck)| - 1]
        && dealer == old(dealer)
        && r.value == HandValue(player)
        && (r.Busted? <==> r.value > 21)
        && finished == r.Busted?
    {
      if actor != owner {
        return HitNotYours;
      }
      if finished {
        return HitIgnored;
      }
      HandValueBounds(player);
      TwoCardHand(dealer);
      CardsLeft(player, dealer, deck);
      DealToPlayer(player, dealer, deck);
      var c := deck[|deck| - 1];
      deck := deck[..|deck| - 1];
      player := player + [c];
      var value := HandValue(player);
      if value > 21 {
        finished := true;
        r := Busted(value);
      } else {
        r := Drew(value);
      }
    }

    /**
      * The dealer's turn: takes the top card of the deck while the dealer's
      * hand is worth less than 17. The deck cannot run out, since the two
      * hands together are worth less than the whole deck.
      */
    method DealerPlays()
      requires Conserved(player, dealer, deck) && LowTotal(player) <= 21
      modifies this`dealer, this`deck
      ensures Conserved(player, dealer, deck)
      ensures DrewWhileBelow(old(dealer), old(deck), dealer, deck)
      ensures HandValue(dealer) >= DealerStandsOn
    {
      ghost var dealer0, deck0 := dealer, deck;
      assert dealer[..|dealer0|] == dealer0;
      while HandValue(dealer) < DealerStandsOn
        invariant Conserved(player, dealer, deck)
        invariant DrewWhileBelow(dealer0, deck0, dealer, deck)
        decreases |deck|
      {
        HandValueBounds(dealer);
        CardsLeft(player, dealer, deck);
        DealToDealer(player, dealer, deck);
        DrawOne(dealer0, deck0, dealer, deck);
        dealer, deck := dealer + [deck[|deck| - 1]], deck[..|deck| - 1];
      }
    }

    /**
      * The game's end on a stand: the game is marked finished, the dealer
      * plays, and the owner is credited the stand's payout for the two
      * final hand values.
      */
    method Finish(db: Store) returns (playerValue: int, dealerValue: int, payout: int)
      requires Valid() && !finished
      modifies this, db`balances
      ensures Valid() && finished && player == old(player)
      ensures DrewWhileBelow(old(dealer), old(deck), dealer, deck)
      ensures HandValue(dealer) >= DealerStandsOn
      ensures playerValue == HandValue(player) <= 21 && dealerValue == HandValue(dealer)
      ensures payout == StandPayout(bet, playerValue, dealerValue)
      ensures forall a :: db.Bal(a) == old(db.Bal(a)) + (if a == Account(guild, owner) then payout else 0)
      ensures old(db.Sound()) && bet >= 0 ==> db.Sound()
    {
      finished := true;
      HandValueBounds(player);
      playerValue := HandValue(player);
      DealerPlays();
      dealerValue := HandValue(dealer);
      payout := StandPayout(bet, playerValue, dealerValue);
      if dealerValue > 21 || playerValue > dealerValue {
        db.AddBalance(Account(guild, owner), bet * 2);
      } else if playerValue == dealerValue {
        db.AddBalance(Account(guild, owner), bet);
      }
    }

    /**
      * The stand button pressed by `actor`. Refused for anyone but the owner
      * and ignored once the game is over, with nothing changed. Otherwise the
      * game ends as Finish describes: the dealer takes the top card of the
      * deck while their hand is worth less than 17, so their final hand is
      * worth at least 17, and the owner is credited the stand's payout.
      */
    method Stand(db: Store, actor: UserId) returns (r: StandResult)
      requires Valid()
      modifies this, db`balances
      ensures Valid()
      ensures r == StandNotYours <==> actor != owner
      ensures r == StandIgnored <==> actor == owner && old(finished)
      ensures r.StandNotYours? || r.StandIgnored? ==>
        && deck == old(deck) && player == old(player) && dealer == old(dealer) && finished == old(finished)
        && forall a :: db.Bal(a) == old(db.Bal(a))
      ensures r.Settled? ==>
        && finished && player == old(player)
        && DrewWhileBelow(old(dealer), old(deck), dealer, deck)
        && HandValue(dealer) >= DealerStandsOn
        && r.playerValue == HandValue(player) <= 21 && r.dealerValue == HandValue(dealer)
        && r.payout == StandPayout(bet, r.playerValue, r.dealerValue)
        && forall a :: db.Bal(a) == old(db.Bal(a)) + (if a == Account(guild, owner) then r.payout else 0)
      ensures old(db.Sound()) && bet >= 0 ==> db.Sound()
    {
      if actor != owner {
        return StandNotYours;
      }
      if finished {
        return StandIgnored;
      }
      var pv, dv, payout := Finish(db);
      r := Settled(pv, dv, payout);
    }
  }

  /**
    * Opens a game for `owner` on the deal from `shuffled`, whose bet has been
    * taken already. When the player's two cards are worth 21 the game ends at
    * once and the owner is credited the natural payout; otherwise the game
    * stays open and no balance moves.
    */
  method StartGame(db: Store, guild: GuildId, owner: UserId, bet: int, shuffled: seq<Card>)
    returns (g: Game, natural: bool)
    requires IsShuffle(shuffled)
    modifies db`balances
    ensures fresh(g) && g.Valid()
    ensures g.guild == guild && g.owner == owner && g.bet == bet
    ensures |shuffled| == DeckSize
    ensures g.player == [shuffled[51], shuffled[50]] && g.dealer == [shuffled[49], shuffled[48]]
    ensures g.deck == shuffled[..48]
    ensures natural <==> HandValue(g.player) == 21
    ensures g.finished == natural
    ensures forall a :: db.Bal(a) == old(db.Bal(a))
              + (if natural && a == Account(guild, owner) then NaturalPayout(bet, HandValue(g.dealer)) else 0)
    ensures old(db.Sound()) && bet >= 0 ==> db.Sound()
  {
    g := new Game(guild, owner, bet, shuffled);
    var pv, dv := HandValue(g.player), HandValue(g.dealer);
    natural := pv == 21;
    if natural {
      g.finished := true;
      if dv == 21 {
        db.AddBalance(Account(guild, owner), bet);
      } else {
        db.AddBalance(Account(guild, owner), NaturalPayout(bet, dv));
      }
    }
  }

  datatype PlayResult = Refused(why: Wager.Refusal) | Started(game: Game, natural: bool)

  /**
    * The blackjack branch of the play command: `user` bets `bet`; `shuffled`
    * is the shuffled deck. Refused, with no balance and no throttle entry
    * changed, for a non-positive bet, a balance below the bet, or a wager
    * within five seconds of the last one. Otherwise the throttle is stamped,
    * the bet is taken, and a game is opened as StartGame describes.
    */
  method PlayBlackjack(db: Store, throttle: Wager.Throttle, guild: GuildId, user: UserId, bet: int,
                       shuffled: seq<Card>, now: int)
    returns (r: PlayResult)
    requires IsShuffle(shuffled)
    modifies db`balances, throttle
    ensures r == Refused(Wager.NonPositiveBet) <==> bet <= 0
    ensures r == Refused(Wager.NotEnoughBalance) <==> bet > 0 && old(db.Bal(Account(guild, user))) < bet
    ensures r.Started? <==>
      && bet > 0 && old(db.Bal(Account(guild, user))) >= bet
      && (Account(guild, user) !in old(throttle.last)
          || now - old(throttle.last)[Account(guild, user)] >= Wager.GambleCooldownSeconds)
    ensures r.Refused? ==> (forall a :: db.Bal(a) == old(db.Bal(a))) && throttle.last == old(throttle.last)
    ensures |shuffled| == DeckSize
    ensures r.Started? ==>
      && fresh(r.game) && r.game.Valid()
      && r.game.owner == user && r.game.guild == guild && r.game.bet == bet
      && throttle.last == old(throttle.last)[Account(guild, user) := now]
      && r.game.player == [shuffled[51], shuffled[50]] && r.game.dealer == [shuffled[49], shuffled[48]]
      && r.game.deck == shuffled[..48]
      && (r.natural <==> HandValue(r.game.player) == 21)
      && (r.natural <==> r.game.finished)
      && forall a :: db.Bal(a) == old(db.Bal(a))
           + (if a == Account(guild, user)
              then (if r.natural then NaturalPayout(bet, HandValue(r.game.dealer)) else 0) - bet
              else 0)
    ensures old(db.Sound()) ==> db.Sound()
  {
    ShuffleFacts(shuffled);
    var admission := Wager.TakeThrottledBet(db, throttle, guild, user, bet, now);
    if admission.Turned? {
      return Refused(admission.why);
    }
    var g, natural := StartGame(db, guild, user, bet, shuffled);
    r := Started(g, natural);
  }
}
