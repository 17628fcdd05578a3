/**
  * Cards of the blackjack game: the 52-card deck, the text label of a card,
  * the value the game reads off that label, and the value of a hand with
  * aces demoted from 11 to 1 while the hand is over 21.
  */
module Cards {

  /** Rank labels in the order the deck is built; index 0 is the ace. */
  const RankLabels: seq<string> := ["A", "2", "3", "4", "5", "6", "7", "8", "9", "10", "J", "Q", "K"]

  /**
    * Suit labels in the order the deck is built. Each is a suit symbol
    * followed by the emoji variation selector U+FE0F, so each is two
    * characters long: that is what lets the rank be read back by dropping
    * the last two characters of a label.
    */
  const SuitLabels: seq<string> := ["\U{2660}\U{FE0F}", "\U{2663}\U{FE0F}", "\U{2665}\U{FE0F}", "\U{2666}\U{FE0F}"]

  const RankCount := 13
  const SuitCount := 4
  const DeckSize := 52

  /** The sum of the low values (aces counted 1) of all 52 cards. */
  const DeckLowTotal := 340

  type RankIndex = i: int | 0 <= i < 13
  type SuitIndex = i: int | 0 <= i < 4

  /** A card is a rank (an index into RankLabels) and a suit (an index into SuitLabels). */
  datatype Card = Card(rank: RankIndex, suit: SuitIndex)

  /** The text the game shows and parses: rank label followed by suit label. */
  function Label(c: Card): string
  {
    RankLabels[c.rank] + SuitLabels[c.suit]
  }

  /** What the game takes as the rank of a label: all but its last two characters. */
  function RankText(cardText: string): string
    requires |cardText| >= 2
  {
    cardText[..|cardText| - 2]
  }

  /** Decimal value of a string of digits, read left to right. */
  function DigitsValue(s: string): int
  {
    if s == [] then 0 else 10 * DigitsValue(s[..|s| - 1]) + (s[|s| - 1] as int - '0' as int)
  }

  /** Face cards are worth 10, the ace 11, every other rank the number it shows. */
  function RankValue(text: string): int
  {
    if text in ["J", "Q", "K"] then 10
    else if text == "A" then 11
    else DigitsValue(text)
  }

  /**
    * The value of a card as the game reads it off the card's label: ace 11,
    * ten and faces 10, two to nine their number.
    */
  function CardValue(c: Card): (v: int)
    ensures v == RankPoints(c.rank)
  {
    RankTextOfLabel(c);
    RankValueOfLabel(c.rank);
    RankValue(RankText(Label(c)))
  }

  /** A card is an ace when the rank part of its label is "A". */
  predicate IsAce(c: Card)
  {
    RankText(Label(c)) == "A"
  }

  /** Value by rank index, without going through the label. */
  function RankPoints(rank: RankIndex): int
  {
    if rank == 0 then 11 else if rank >= 10 then 10 else rank + 1
  }

  /** Dropping the last two characters of a label leaves its rank label: every suit label is two characters long. */
  lemma RankTextOfLabel(c: Card)
    ensures RankText(Label(c)) == RankLabels[c.rank]
  {
    var l := Label(c);
    assert |SuitLabels[c.suit]| == 2;
    assert l[..|l| - 2] == RankLabels[c.rank];
  }

  /** Each rank label is worth its rank's points: "A" 11, "10", "J", "Q", "K" 10, the digits their number. */
  lemma RankValueOfLabel(rank: RankIndex)
    ensures RankValue(RankLabels[rank]) == RankPoints(rank)
  {
    var t := RankLabels[rank];
    if rank == 9 {
      assert t == "10";
      assert t[..1] == "1";
      assert DigitsValue(t) == 10 * DigitsValue("1") + 0;
    } else if 1 <= rank <= 8 {
      assert |t| == 1 && t[..0] == [];
    }
  }

  /**
    * Reading the value back from the label gives the value of the card's rank,
    * and exactly the rank-0 cards are aces.
    */
  lemma CardValueByRank(c: Card)
    ensures CardValue(c) == RankPoints(c.rank)
    ensures IsAce(c) <==> c.rank == 0
  {
    RankTextOfLabel(c);
  }

  /** Value of a card with aces counted as 1. */
  function LowValue(c: Card): int
  {
    if IsAce(c) then 1 else CardValue(c)
  }

  /** The raw sum of a hand, aces counted as 11. */
  function Raw(hand: seq<Card>): (r: int)
    ensures 2 * |hand| <= r <= 11 * |hand|
  {
    if hand == [] then 0 else Raw(hand[..|hand| - 1]) + CardValue(hand[|hand| - 1])
  }

  /** The number of aces in a hand. */
  function Aces(hand: seq<Card>): (n: nat)
    ensures n <= |hand|
  {
    if hand == [] then 0 else Aces(hand[..|hand| - 1]) + (if IsAce(hand[|hand| - 1]) then 1 else 0)
  }

  /** The sum of a hand with every ace counted as 1. */
  function LowTotal(hand: seq<Card>): int
  {
    if hand == [] then 0 else LowTotal(hand[..|hand| - 1]) + LowValue(hand[|hand| - 1])
  }

  /**
    * Ace demotion: while the value is over 21 and an undemoted ace remains,
    * take 10 off. The result lies between the all-aces-low value and the
    * starting value, differs from the start by whole demotions, is at most 21
    * unless every ace has been demoted, and is over 11 whenever something was
    * demoted (each demotion started from a value over 21).
    */
  function Demote(value: int, aces: nat): (r: int)
    ensures value - 10 * aces <= r <= value
    ensures (value - r) % 10 == 0 && (value - r) / 10 <= aces
    ensures r <= 21 || r == value - 10 * aces
    ensures r < value ==> r > 11
    decreases aces
  {
    if value > 21 && aces > 0 then Demote(value - 10, aces - 1) else value
  }

  /** The value of a hand: the raw sum with aces demoted as needed. */
  function HandValue(hand: seq<Card>): (v: int)
    ensures Raw(hand) - 10 * Aces(hand) <= v <= Raw(hand)
    ensures v <= 21 || v == Raw(hand) - 10 * Aces(hand)
  {
    Demote(Raw(hand), Aces(hand))
  }

  /** Adding one card to a hand adds its value, its ace count and its low value. */
  lemma HandSnoc(hand: seq<Card>, c: Card)
    ensures Raw(hand + [c]) == Raw(hand) + CardValue(c)
    ensures Aces(hand + [c]) == Aces(hand) + (if IsAce(c) then 1 else 0)
    ensures LowTotal(hand + [c]) == LowTotal(hand) + LowValue(c)
  {
    assert (hand + [c])[..|hand + [c]| - 1] == hand;
  }

  /** Counting every ace as 1 instead of 11 takes exactly 10 per ace off the raw sum; neither sum is negative. */
  lemma {:induction false} LowTotalIsRawMinusAces(hand: seq<Card>)
    ensures Raw(hand) >= LowTotal(hand) >= 0
    ensures LowTotal(hand) == Raw(hand) - 10 * Aces(hand)
  {
    if hand != [] {
      LowTotalIsRawMinusAces(hand[..|hand| - 1]);
      CardValueByRank(hand[|hand| - 1]);
    }
  }

  /**
    * The hand value is never below the all-aces-low total and never above
    * the raw total; it is at most 21 unless every ace has been demoted, in
    * which case it equals the all-aces-low total.
    */
  lemma HandValueBounds(hand: seq<Card>)
    ensures LowTotal(hand) <= HandValue(hand) <= Raw(hand)
    ensures HandValue(hand) <= 21 || HandValue(hand) == LowTotal(hand)
    ensures HandValue(hand) >= 0
  {
    LowTotalIsRawMinusAces(hand);
  }

  /** An ace and a king make 21. */
  lemma AceKing(s1: SuitIndex, s2: SuitIndex)
    ensures HandValue([Card(0, s1), Card(12, s2)]) == 21
  {
    var a, k := Card(0, s1), Card(12, s2);
    CardValueByRank(a);
    CardValueByRank(k);
    HandSnoc([], a);
    assert [] + [a] == [a];
    HandSnoc([a], k);
    assert [a] + [k] == [a, k];
  }

  /** Two aces and a nine make 21: one ace is demoted, the other stays at 11. */
  lemma AceAceNine(s1: SuitIndex, s2: SuitIndex, s3: SuitIndex)
    ensures HandValue([Card(0, s1), Card(0, s2), Card(8, s3)]) == 21
  {
    var a1, a2, n := Card(0, s1), Card(0, s2), Card(8, s3);
    CardValueByRank(a1);
    CardValueByRank(a2);
    CardValueByRank(n);
    HandSnoc([], a1);
    assert [] + [a1] == [a1];
    HandSnoc([a1], a2);
    assert [a1] + [a2] == [a1, a2];
    HandSnoc([a1, a2], n);
    assert [a1, a2] + [n] == [a1, a2, n];
    assert Demote(31, 2) == Demote(21, 1) == 21;
  }

  /**
    * Any two-card hand is worth at most 21 (two aces count 12), and its
    * all-aces-low total is at most 20.
    */
  lemma TwoCardHand(hand: seq<Card>)
    requires |hand| == 2
    ensures HandValue(hand) <= 21
    ensures LowTotal(hand) <= 20
  {
    var c0, c1 := hand[0], hand[1];
    CardValueByRank(c0);
    CardValueByRank(c1);
    HandSnoc([], c0);
    assert [] + [c0] == [c0];
    HandSnoc([c0], c1);
    assert [c0] + [c1] == hand;
  }

  /** A card's low value is between 1 and 10. */
  lemma LowValueRange(c: Card)
    ensures 1 <= LowValue(c) <= 10
  {
    CardValueByRank(c);
  }

  /** The low total of two hands put together is the sum of their low totals. */
  lemma {:induction false} LowTotalConcat(a: seq<Card>, b: seq<Card>)
    ensures LowTotal(a + b) == LowTotal(a) + LowTotal(b)
    decreases |b|
  {
    if b != [] {
      assert (a + b)[..|a + b| - 1] == a + b[..|b| - 1];
      LowTotalConcat(a, b[..|b| - 1]);
    } else {
      assert a + b == a;
    }
  }

  /** The low total of a hand depends only on which cards it holds, not on their order. */
  lemma {:induction false} LowTotalPermutation(a: seq<Card>, b: seq<Card>)
    requires multiset(a) == multiset(b)
    ensures LowTotal(a) == LowTotal(b)
    decreases |a|
  {
    if a != [] {
      var x := a[|a| - 1];
      var a' := a[..|a| - 1];
      assert a == a' + [x];
      assert x in multiset(b);
      var i :| 0 <= i < |b| && b[i] == x;
      var b' := b[..i] + b[i + 1..];
      assert b == b[..i] + [x] + b[i + 1..];
      assert multiset(b) == multiset(b[..i]) + multiset{x} + multiset(b[i + 1..]);
      assert multiset(b') == multiset(b[..i]) + multiset(b[i + 1..]);
      assert multiset(a) == multiset(a') + multiset{x};
      assert multiset(a') == multiset(a) - multiset{x};
      assert multiset(b') == multiset(b) - multiset{x};
      LowTotalPermutation(a', b');
      var front, back := b[..i], b[i + 1..];
      LowTotalConcat(front + [x], back);
      LowTotalConcat(front, [x]);
      LowTotalConcat(front, back);
      assert [x][..0] == [];
      assert LowTotal(b) == LowTotal(front) + LowValue(x) + LowTotal(back);
      assert LowTotal(b') == LowTotal(front) + LowTotal(back);
      assert LowTotal(a) == LowTotal(a') + LowValue(x);
    } else {
      assert |b| == |multiset(b)| == 0;
    }
  }

  /** The deck in the order it is built: for each suit, the thirteen ranks ace to king. */
  function OrderedDeck(): seq<Card>
  {
    seq(DeckSize, i requires 0 <= i < DeckSize => Card(i % RankCount, i / RankCount))
  }

  /** The built deck has 52 cards, holds every card, and holds no card twice. */
  lemma OrderedDeckComplete(c: Card)
    ensures |OrderedDeck()| == DeckSize
    ensures c in OrderedDeck()
    ensures forall i, j :: 0 <= i < j < |OrderedDeck()| ==> OrderedDeck()[i] != OrderedDeck()[j]
  {
    var d := OrderedDeck();
    var k := 13 * c.suit + c.rank;
    assert d[k] == c;
    forall i, j | 0 <= i < j < |d| ensures d[i] != d[j] {
      assert i == 13 * d[i].suit + d[i].rank;
      assert j == 13 * d[j].suit + d[j].rank;
    }
  }

  /** The low values of the first r ranks of a suit. */
  function RankPrefix(r: nat): int
    requires r <= RankCount
  {
    if r == 0 then 0 else RankPrefix(r - 1) + (if r - 1 == 0 then 1 else RankPoints(r - 1))
  }

  /** Division by 13 with remainder has a unique quotient and remainder. */
  lemma DivMod13(n: int, q: int, r: int)
    requires n == 13 * q + r && 0 <= r < 13
    ensures n / 13 == q && n % 13 == r
  {
  }

  /** The first k cards of the built deck: k / 13 whole suits of 85 each, then the first k % 13 ranks. */
  lemma {:induction false} OrderedDeckPrefixTotal(k: nat)
    requires k <= DeckSize
    ensures LowTotal(OrderedDeck()[..k]) == 85 * (k / 13) + RankPrefix(k % 13)
  {
    if k > 0 {
      var d := OrderedDeck();
      OrderedDeckPrefixTotal(k - 1);
      assert d[..k][..k - 1] == d[..k - 1];
      var c := d[k - 1];
      CardValueByRank(c);
      assert RankPrefix(13) == 85;
      var q, m := (k - 1) / 13, (k - 1) % 13;
      if m == 12 {
        DivMod13(k, q + 1, 0);
      } else {
        DivMod13(k, q, m + 1);
      }
    }
  }

  /** All 52 cards, aces counted 1, add up to 340. */
  lemma OrderedDeckLowTotal()
    ensures LowTotal(OrderedDeck()) == DeckLowTotal
  {
    OrderedDeckPrefixTotal(52);
    assert OrderedDeck()[..52] == OrderedDeck();
  }

  /** A shuffled deck: any arrangement of the 52 built cards. */
  predicate IsShuffle(deck: seq<Card>)
  {
    multiset(deck) == multiset(OrderedDeck())
  }

  /** Every shuffle has 52 cards and the same low total as the built deck. */
  lemma ShuffleFacts(deck: seq<Card>)
    requires IsShuffle(deck)
    ensures |deck| == DeckSize
    ensures LowTotal(deck) == DeckLowTotal
  {
    assert |deck| == |multiset(deck)| == |multiset(OrderedDeck())| == |OrderedDeck()|;
    OrderedDeckLowTotal();
    LowTotalPermutation(deck, OrderedDeck());
  }

  /** Builds the deck suit by suit, rank by rank, as the game does before shuffling. */
  method CreateDeck() returns (deck: seq<Card>)
    ensures deck == OrderedDeck()
  {
    deck := [];
    for suit := 0 to SuitCount
      invariant deck == OrderedDeck()[..RankCount * suit]
    {
      for rank := 0 to RankCount
        invariant deck == OrderedDeck()[..RankCount * suit + rank]
      {
        assert OrderedDeck()[RankCount * suit + rank] == Card(rank, suit);
        assert OrderedDeck()[..RankCount * suit + rank + 1]
            == OrderedDeck()[..RankCount * suit + rank] + [Card(rank, suit)];
        deck := deck + [Card(rank, suit)];
      }
    }
    assert OrderedDeck()[..DeckSize] == OrderedDeck();
  }
}
