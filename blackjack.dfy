/**
 * Blackjack against a dealer who draws to 17.  Cards count their face
 * value, 10 for a court card and 11 for an ace, and a hand over 21 counts
 * its aces as 1 one at a time until it is not.  The shuffled deck is an
 * input.
 */
module Blackjack {
  datatype Suit = Hearts | Diamonds | Clubs | Spades
  datatype Rank = Num(n: int) | Jack | Queen | King | Ace
  datatype Card = Card(rank: Rank, suit: Suit)

  /** The thirteen ranks in the order of RANKS: 2 .. 10, J, Q, K, A. */
  function RankAt(k: int): Rank
    requires 0 <= k < 13
  {
    if k < 9 then Num(k + 2) else if k == 9 then Jack else if k == 10 then Queen else if k == 11 then King else Ace
  }

  /** The four suits in the order of SUITS. */
  function SuitAt(k: int): Suit
    requires 0 <= k < 4
  {
    if k == 0 then Hearts else if k == 1 then Diamonds else if k == 2 then Clubs else Spades
  }

  predicate ValidRank(r: Rank) { r.Num? ==> 2 <= r.n <= 10 }

  /** Card.val: 10 for J, Q and K, 11 for an ace, the numeral otherwise. */
  function Value(r: Rank): (v: int)
    requires ValidRank(r)
    ensures 2 <= v <= 11 && (v == 11 <==> r == Ace) && (v == 10 <==> r in {Num(10), Jack, Queen, King})
  {
    match r
    case Jack => 10
    case Queen => 10
    case King => 10
    case Ace => 11
    case Num(n) => n
  }

  // ---------------------------------------------------------------------
  // The deck

  /** Deck(): every rank of every suit, suit by suit, before the shuffle. */
  function FullDeck(): seq<Card>
  {
    seq(52, i requires 0 <= i < 52 => Card(RankAt(i % 13), SuitAt(i / 13)))
  }

  /** The deck holds 52 distinct cards, and every card of a valid rank is among them. */
  lemma DeckComplete()
    ensures |FullDeck()| == 52
    ensures forall i, j :: 0 <= i < j < 52 ==> FullDeck()[i] != FullDeck()[j]
    ensures forall c: Card :: ValidRank(c.rank) ==> c in FullDeck()
    ensures forall i :: 0 <= i < 52 ==> ValidRank(FullDeck()[i].rank)
  {
    var d := FullDeck();
    forall i, j | 0 <= i < j < 52 ensures d[i] != d[j] {
      if d[i] == d[j] {
        RankAtInjective(i % 13, j % 13);
        SuitAtInjective(i / 13, j / 13);
      }
    }
    forall c: Card | ValidRank(c.rank) ensures c in d {
      var r := RankIndex(c.rank);
      var s := SuitIndex(c.suit);
      assert d[13 * s + r] == c;
    }
  }

  lemma RankAtInjective(a: int, b: int)
    requires 0 <= a < 13 && 0 <= b < 13 && RankAt(a) == RankAt(b)
    ensures a == b
  {
  }

  lemma SuitAtInjective(a: int, b: int)
    requires 0 <= a < 4 && 0 <= b < 4 && SuitAt(a) == SuitAt(b)
    ensures a == b
  {
  }

  function RankIndex(r: Rank): (k: int)
    requires ValidRank(r)
    ensures 0 <= k < 13 && RankAt(k) == r
  {
    match r
    case Num(n) => n - 2
    case Jack => 9
    case Queen => 10
    case King => 11
    case Ace => 12
  }

  function SuitIndex(s: Suit): (k: int)
    ensures 0 <= k < 4 && SuitAt(k) == s
  {
    match s
    case Hearts => 0
    case Diamonds => 1
    case Clubs => 2
    case Spades => 3
  }

  /** random.shuffle: an arrangement of the full deck. */
  predicate Shuffled(d: seq<Card>)
  {
    |d| == 52 && multiset(d) == multiset(FullDeck())
  }

  // ---------------------------------------------------------------------
  // Scoring

  predicate ValidHand(h: seq<Card>)
  {
    forall i :: 0 <= i < |h| ==> ValidRank(h[i].rank)
  }

  /** The sum of the card values, aces at 11. */
  function Raw(h: seq<Card>): int
    requires ValidHand(h)
  {
    if h == [] then 0 else Raw(h[..|h| - 1]) + Value(h[|h| - 1].rank)
  }

  /** The number of aces. */
  function Aces(h: seq<Card>): nat
  {
    if h == [] then 0 else Aces(h[..|h| - 1]) + (if h[|h| - 1].rank == Ace then 1 else 0)
  }

  /**
   * How many aces calculate_score counts as 1: none at 21 or less,
   * otherwise the fewest that bring the total to 21 or less, and every
   * ace when even that is not enough.
   */
  function Reductions(raw: int, aces: nat): (k: nat)
    ensures k <= aces
    ensures raw - 10 * k > 21 ==> k == aces
    ensures k > 0 ==> raw - 10 * (k - 1) > 21
  {
    if raw <= 21 then 0
    else if (raw - 12) / 10 < aces then (raw - 12) / 10
    else aces
  }

  /** The only count of reduced aces that satisfies the contract of Reductions is Reductions itself. */
  lemma ReductionsUnique(raw: int, aces: nat, k: nat)
    requires k <= aces && (raw - 10 * k > 21 ==> k == aces) && (k > 0 ==> raw - 10 * (k - 1) > 21)
    ensures k == Reductions(raw, aces)
  {
  }

  /** calculate_score, in closed form: the raw sum less 10 for each ace counted as 1. */
  function Score(h: seq<Card>): int
    requires ValidHand(h)
  {
    Raw(h) - 10 * Reductions(Raw(h), Aces(h))
  }

  /** A score over 21 counts every ace as 1, and no hand scores less than its count of cards. */
  lemma {:induction false} ScoreBounds(h: seq<Card>)
    requires ValidHand(h)
    ensures Score(h) > 21 ==> Score(h) == Raw(h) - 10 * Aces(h)
    ensures Raw(h) >= 2 * |h| + 9 * Aces(h)
    ensures Aces(h) <= |h| && Score(h) >= |h|
  {
    if h != [] {
      ScoreBounds(h[..|h| - 1]);
    }
  }

  /** calculate_score: sum the values and count the aces, then take 10 off per ace while the total is over 21. */
  method CalculateScore(h: seq<Card>) returns (score: int)
    requires ValidHand(h)
    ensures score == Score(h)
  {
    score := 0;
    var aces := 0;
    for i := 0 to |h|
      invariant score == Raw(h[..i]) && aces == Aces(h[..i])
    {
      assert h[..i + 1][..i] == h[..i];
      score := score + Value(h[i].rank);
      if h[i].rank == Ace {
        aces := aces + 1;
      }
    }
    assert h[..|h|] == h;
    ghost var raw, total := score, aces;
    while score > 21 && aces > 0
      invariant 0 <= aces <= total && score == raw - 10 * (total - aces)
      invariant total - aces > 0 ==> score + 10 > 21
    {
      score := score - 10;
      aces := aces - 1;
    }
    ReductionsUnique(raw, total, total - aces);
  }

  // ---------------------------------------------------------------------
  // The table

  datatype Phase = Betting | Playing | DealerTurn | GameOver

  datatype Outcome = NoOutcome | Push | BlackjackWin | Bust | DealerBust | DealerWins | YouWin

  /** The settlement after the dealer stands: a dealer bust wins, else the higher score wins, and equal scores push. */
  function Settle(dealer: int, player: int): (o: Outcome)
    ensures o in {DealerBust, DealerWins, YouWin, Push}
    ensures o == DealerBust <==> dealer > 21
    ensures o == DealerWins <==> dealer <= 21 && dealer > player
    ensures o == YouWin <==> dealer <= 21 && dealer < player
    ensures o == Push <==> dealer <= 21 && dealer == player
  {
    if dealer > 21 then DealerBust
    else if dealer > player then DealerWins
    else if dealer < player then YouWin
    else Push
  }

  /** What the player pressed: the deal button or Space, the hit button or H, the stand button or S. */
  datatype Action = DealAction | HitAction | StandAction

  class Table {
    var deck: seq<Card>
    var player: seq<Card>
    var dealer: seq<Card>
    /** Whether the dealer's first card is face down. */
    var holeHidden: bool
    var state: Phase
    var outcome: Outcome
    /** The shuffled deck the round was dealt from. */
    ghost var cards: seq<Card>

    /**
     * No card is lost or made up: deck and hands together are the full
     * deck.  Once dealt each hand has at least two cards; while the player
     * plays the hole card is hidden and the player is not bust; on the
     * dealer's turn it is shown; a round lost by a bust ends with the hand over 21.
     */
    ghost predicate Valid()
      reads this
    {
      Cards() &&
      (state == Betting ==> player == [] && dealer == []) &&
      (state != Betting ==> |player| >= 2 && |dealer| >= 2) &&
      (state == Playing ==> holeHidden && Score(player) <= 21) &&
      (state == DealerTurn ==> !holeHidden && Score(player) <= 21) &&
      (state == GameOver ==> outcome != NoOutcome) &&
      (state == GameOver && outcome == Bust ==> Score(player) > 21)
    }

    /** No card is lost or made up: deck and hands together hold the cards of the shuffled deck. */
    ghost predicate Cards()
      reads this
    {
      Shuffled(cards) && multiset(deck) + multiset(player) + multiset(dealer) == multiset(cards) &&
      ValidHand(deck) && ValidHand(player) && ValidHand(dealer)
    }

    /** The table of main before the first deal: a shuffled deck, empty hands, betting. */
    constructor (shuffled: seq<Card>)
      requires Shuffled(shuffled)
      ensures Valid() && deck == shuffled && player == [] && dealer == [] && state == Betting && outcome == NoOutcome
    {
      deck := shuffled;
      cards := shuffled;
      player := [];
      dealer := [];
      holeHidden := false;
      state := Betting;
      outcome := NoOutcome;
      new;
      ShuffledValid(shuffled);
    }

    /** Deck.draw: take the last card. */
    method Draw() returns (c: Card)
      requires |deck| > 0
      modifies this`deck
      ensures c == old(deck[|deck| - 1]) && deck == old(deck[..|deck| - 1])
    {
      c := deck[|deck| - 1];
      deck := deck[..|deck| - 1];
    }

    /**
     * action_deal: a new shuffled deck, two cards each, the dealer's first
     * face down.  A player 21 ends the round at once, a push if the dealer
     * also has 21 and a blackjack win if not; otherwise the player plays.
     */
    method Deal(shuffled: seq<Card>)
      requires Shuffled(shuffled)
      modifies this
      ensures Valid()
      ensures player == [shuffled[51], shuffled[50]] && dealer == [shuffled[49], shuffled[48]] && deck == shuffled[..48]
      ensures Score(player) == 21 ==>
        state == GameOver && !holeHidden && outcome == (if Score(dealer) == 21 then Push else BlackjackWin)
      ensures Score(player) != 21 ==> state == Playing && holeHidden && outcome == old(outcome)
    {
      DealCards(shuffled);
      Reveal();
    }

    /** After the deal: a player 21 settles the round at once, otherwise the player plays with the hole card hidden. */
    method Reveal()
      requires Cards() && |player| == 2 && |dealer| == 2
      modifies this`holeHidden, this`state, this`outcome
      ensures Valid()
      ensures Score(player) == 21 ==>
        state == GameOver && !holeHidden && outcome == (if Score(dealer) == 21 then Push else BlackjackWin)
      ensures Score(player) != 21 ==> state == Playing && holeHidden && outcome == old(outcome)
    {
      TwoCards(player);
      var pScore := CalculateScore(player);
      if pScore == 21 {
        holeHidden := false;
        var dScore := CalculateScore(dealer);
        state := GameOver;
        outcome := if dScore == 21 then Push else BlackjackWin;
      } else {
        holeHidden := true;
        state := Playing;
      }
    }

    /** The dealing of action_deal: the new deck, then two cards to the player and two to the dealer off its end. */
    method DealCards(shuffled: seq<Card>)
      requires Shuffled(shuffled)
      modifies this`deck, this`cards, this`player, this`dealer
      ensures Cards()
      ensures player == [shuffled[51], shuffled[50]] && dealer == [shuffled[49], shuffled[48]] && deck == shuffled[..48]
    {
      deck := shuffled;
      cards := shuffled;
      var p1 := Draw();
      var p2 := Draw();
      var d1 := Draw();
      var d2 := Draw();
      player := [p1, p2];
      dealer := [d1, d2];
      Dealt(shuffled, deck, p1, p2, d1, d2);
    }

    /** action_hit: the player takes the top card and loses at once on going over 21. */
    method Hit()
      requires Valid() && state == Playing && |deck| > 0
      modifies this`deck, this`player, this`state, this`outcome
      ensures Valid()
      ensures player == old(player) + [old(deck[|deck| - 1])] && deck == old(deck[..|deck| - 1])
      ensures Score(player) > 21 ==> state == GameOver && outcome == Bust
      ensures Score(player) <= 21 ==> state == Playing && outcome == old(outcome)
    {
      PlayerTakes();
      var pScore := CalculateScore(player);
      if pScore > 21 {
        state := GameOver;
        outcome := Bust;
      }
    }

    /** The card of a hit moves from the end of the deck to the end of the player's hand. */
    method PlayerTakes()
      requires Cards() && |deck| > 0
      modifies this`deck, this`player
      ensures Cards()
      ensures player == old(player) + [old(deck[|deck| - 1])] && deck == old(deck[..|deck| - 1])
    {
      var c := Draw();
      DrawOne(old(deck), deck, player, c);
      assert ValidHand(player + [c]);
      player := player + [c];
    }

    /** The card of a dealer draw moves from the end of the deck to the end of the dealer's hand. */
    method DealerTakes()
      requires Cards() && |deck| > 0
      modifies this`deck, this`dealer
      ensures Cards()
      ensures dealer == old(dealer) + [old(deck[|deck| - 1])] && deck == old(deck[..|deck| - 1])
    {
      var c := Draw();
      DrawOneDealer(old(deck), deck, player, dealer, c);
      assert ValidHand(dealer + [c]);
      dealer := dealer + [c];
    }

    /** action_stand: the dealer's turn, with the hole card turned up. */
    method Stand()
      requires Valid() && state == Playing
      modifies this`state, this`holeHidden
      ensures Valid() && state == DealerTurn && !holeHidden
    {
      state := DealerTurn;
      holeHidden := false;
    }

    /** One frame of the dealer's turn: below 17 the dealer draws; otherwise the round is settled. */
    method DealerStep()
      requires Valid() && state == DealerTurn && (Score(dealer) < 17 ==> |deck| > 0)
      modifies this`deck, this`dealer, this`state, this`outcome
      ensures Valid() && player == old(player)
      ensures old(Score(dealer)) < 17 ==>
        dealer == old(dealer) + [old(deck[|deck| - 1])] && deck == old(deck[..|deck| - 1]) && state == DealerTurn
      ensures old(Score(dealer)) >= 17 ==>
        dealer == old(dealer) && state == GameOver && outcome == Settle(Score(dealer), Score(player))
    {
      var dScore := CalculateScore(dealer);
      if dScore < 17 {
        DealerTakes();
      } else {
        var pScore := CalculateScore(player);
        outcome := Settle(dScore, pScore);
        state := GameOver;
      }
    }

    /** A click or key of main: deal while betting or after a round, hit or stand while playing, nothing otherwise. */
    method Act(a: Action, shuffled: seq<Card>)
      requires Valid() && Shuffled(shuffled) && (a == HitAction && state == Playing ==> |deck| > 0)
      modifies this
      ensures Valid()
      ensures a == DealAction && old(state) in {Betting, GameOver} ==> player == [shuffled[51], shuffled[50]]
      ensures a == HitAction && old(state) == Playing ==> player == old(player) + [old(deck[|deck| - 1])]
      ensures a == StandAction && old(state) == Playing ==> state == DealerTurn && player == old(player)
      ensures !(a == DealAction && old(state) in {Betting, GameOver}) && !(a != DealAction && old(state) == Playing) ==>
        deck == old(deck) && player == old(player) && dealer == old(dealer) && state == old(state) && outcome == old(outcome)
    {
      if a == DealAction && (state == Betting || state == GameOver) {
        Deal(shuffled);
      } else if a == HitAction && state == Playing {
        Hit();
      } else if a == StandAction && state == Playing {
        Stand();
      }
    }
  }

  /** Four draws off the end of a deck leave the deck without its last four cards. */
  lemma DrawFourSeq<T>(s: seq<T>, rest: seq<T>, p1: T, p2: T, d1: T, d2: T)
    requires |s| >= 4 && rest == s[..|s| - 4]
    requires p1 == s[|s| - 1] && p2 == s[|s| - 2] && d1 == s[|s| - 3] && d2 == s[|s| - 4]
    ensures s == rest + [d2, d1] + [p2, p1]
  {
  }

  /** Four cards drawn off a shuffled deck: every part is a valid hand, and together they are the deck. */
  lemma Dealt(s: seq<Card>, rest: seq<Card>, p1: Card, p2: Card, d1: Card, d2: Card)
    requires Shuffled(s) && rest == s[..48]
    requires p1 == s[51] && p2 == s[50] && d1 == s[49] && d2 == s[48]
    ensures ValidHand(rest) && ValidHand([p1, p2]) && ValidHand([d1, d2])
    ensures multiset(rest) + multiset([p1, p2]) + multiset([d1, d2]) == multiset(s)
  {
    ShuffledValid(s);
    DrawFourSeq(s, rest, p1, p2, d1, d2);
    DrawFour(s, rest, p1, p2, d1, d2);
  }

  /** The cards taken and what remains make up the deck. */
  lemma DrawFour<T>(s: seq<T>, rest: seq<T>, p1: T, p2: T, d1: T, d2: T)
    requires s == rest + [d2, d1] + [p2, p1]
    ensures multiset(rest) + multiset([p1, p2]) + multiset([d1, d2]) == multiset(s)
  {
    calc {
      multiset(s);
      multiset(rest + [d2, d1]) + multiset([p2, p1]);
      multiset(rest) + multiset([d2, d1]) + multiset([p2, p1]);
    }
    PairSwap(p2, p1);
    PairSwap(d2, d1);
  }

  /** One draw off the end of the deck onto the end of a hand keeps the cards of deck and hand together. */
  lemma DrawOne<T>(deck: seq<T>, rest: seq<T>, hand: seq<T>, c: T)
    requires |deck| > 0 && rest == deck[..|deck| - 1] && c == deck[|deck| - 1]
    ensures multiset(rest) + multiset(hand + [c]) == multiset(deck) + multiset(hand)
  {
    assert deck == rest + [c];
  }

  /** The same draw onto the dealer's hand, with the player's hand in between. */
  lemma DrawOneDealer<T>(deck: seq<T>, rest: seq<T>, player: seq<T>, dealer: seq<T>, c: T)
    requires |deck| > 0 && rest == deck[..|deck| - 1] && c == deck[|deck| - 1]
    ensures multiset(rest) + multiset(player) + multiset(dealer + [c]) == multiset(deck) + multiset(player) + multiset(dealer)
  {
    assert deck == rest + [c];
    assert multiset(dealer + [c]) == multiset(dealer) + multiset{c};
    assert multiset(deck) == multiset(rest) + multiset{c};
  }

  lemma PairSwap<T>(a: T, b: T)
    ensures multiset([a, b]) == multiset([b, a])
  {
    assert [a, b] == [a] + [b];
    assert [b, a] == [b] + [a];
  }

  /** Two cards never score over 21: two aces count 12. */
  lemma TwoCards(h: seq<Card>)
    requires ValidHand(h) && |h| == 2
    ensures Score(h) <= 21
  {
    assert h[..1][..0] == [] && h[..1] == [h[0]] && h[..|h| - 1] == h[..1];
    assert Raw(h[..1]) == Value(h[0].rank);
    assert Aces(h[..1]) == (if h[0].rank == Ace then 1 else 0);
    assert Raw(h) == Value(h[0].rank) + Value(h[1].rank);
    assert Aces(h) == (if h[0].rank == Ace then 1 else 0) + (if h[1].rank == Ace then 1 else 0);
  }

  /** A shuffled deck is made of cards of valid rank. */
  lemma ShuffledValid(d: seq<Card>)
    requires Shuffled(d)
    ensures |d| == 52 && ValidHand(d)
  {
    DeckComplete();
    assert |d| == |multiset(d)| == |multiset(FullDeck())|;
    forall i | 0 <= i < |d| ensures ValidRank(d[i].rank) {
      assert d[i] in multiset(FullDeck());
    }
  }
}
