/** Deck: a list of cards built from whole standard decks, dealt from its end. */
module Decks {
  import opened Cards
  import opened Tableau
  import opened Solver

  /** The suits of a standard deck, in the order a deck is built. */
  const Suits: string := "SHCD"

  /** A card of a standard deck: rank 1..13 and one of the four suits. */
  predicate Standard(c: Card) {
    1 <= c.rank <= 13 && c.suit in Suits
  }

  /** One deck as the constructor builds it: for each suit in turn, ranks 1 to 13. */
  function OneDeck(): (d: seq<Card>)
    ensures |d| == 52
  {
    seq(52, k requires 0 <= k < 52 => Card(k % 13 + 1, Suits[k / 13]))
  }

  /** `decks` decks one after the other; none when `decks` is not positive. */
  function FullDecks(decks: int): (d: seq<Card>)
    ensures |d| == if decks > 0 then 52 * decks else 0
    decreases decks
  {
    if decks <= 0 then [] else FullDecks(decks - 1) + OneDeck()
  }

  class Deck {
    var cards: seq<Card>

    /** Deck(decks): append, `decks` times, the 13 ranks of each of the four suits. */
    constructor (decks: int := 1)
      ensures cards == FullDecks(decks)
    {
      cards := [];
      new;
      var d := decks;
      while d > 0
        invariant d <= decks && (decks <= 0 ==> d == decks) && (decks > 0 ==> d >= 0)
        invariant cards == FullDecks(decks - d)
        decreases d
      {
        ghost var before := cards;
        var i := 0;
        while i < 4
          invariant 0 <= i <= 4
          invariant cards == before + OneDeck()[..13 * i]
        {
          var s := Suits[i];
          var v := 1;
          while v < 14
            invariant 1 <= v <= 14
            invariant cards == before + OneDeck()[..13 * i + v - 1]
          {
            DeckPosition(i, v);
            assert OneDeck()[..13 * i + v] == OneDeck()[..13 * i + v - 1] + [Card(v, s)];
            cards := cards + [(Card(v, s))];
            v := v + 1;
          }
          i := i + 1;
        }
        assert OneDeck()[..52] == OneDeck();
        d := d - 1;
      }
    }

    /** deal: remove and return the last card; None stands for the IndexError an empty
        list raises. */
    method Deal() returns (c: Option<Card>)
      modifies this
      ensures old(cards) == [] ==> c == None && cards == old(cards)
      ensures old(cards) != [] ==> c.Some? && cards + [c.value] == old(cards)
    {
      if cards == [] {
        return None;
      }
      c := Some(cards[|cards| - 1]);
      cards := cards[..|cards| - 1];
    }
  }

  /** The card the constructor appends for suit number i and rank v sits at 13 * i + v - 1. */
  lemma DeckPosition(i: int, v: int)
    requires 0 <= i < 4 && 1 <= v <= 13
    ensures OneDeck()[13 * i + v - 1] == Card(v, Suits[i])
  {
    var k := 13 * i + v - 1;
    assert k / 13 == i && k % 13 == v - 1 by {
      assert 13 * i <= k < 13 * i + 13;
    }
  }

  /** A sequence without repeats holds each card once or not at all. */
  lemma {:induction false} CountDistinct(s: seq<Card>, c: Card)
    requires forall i, j :: 0 <= i < j < |s| ==> s[i] != s[j]
    ensures multiset(s)[c] == if c in s then 1 else 0
  {
    if s != [] {
      assert s == [s[0]] + s[1..];
      CountDistinct(s[1..], c);
      if c == s[0] {
        assert c !in s[1..] by {
          forall j | 0 <= j < |s[1..]| ensures s[1..][j] != c {
            assert s[1..][j] == s[j + 1];
          }
        }
      }
    }
  }

  /** One deck holds each standard card exactly once and nothing else. */
  lemma OneDeckCount(c: Card)
    ensures multiset(OneDeck())[c] == if Standard(c) then 1 else 0
  {
    var d := OneDeck();
    forall i, j | 0 <= i < j < |d| ensures d[i] != d[j] {
      assert i / 13 <= j / 13;
      if i / 13 == j / 13 {
        assert i % 13 != j % 13;
      } else {
        assert Suits[i / 13] != Suits[j / 13];
      }
    }
    CountDistinct(d, c);
    if Standard(c) {
      var i :| 0 <= i < 4 && Suits[i] == c.suit;
      DeckPosition(i, c.rank);
    }
  }

  /** n decks hold each standard card exactly n times and nothing else. */
  lemma {:induction false} FullDecksCount(decks: int, c: Card)
    ensures multiset(FullDecks(decks))[c] == if decks > 0 && Standard(c) then decks else 0
  {
    if decks > 0 {
      FullDecksCount(decks - 1, c);
      OneDeckCount(c);
    }
  }

  /** Up to twelve decks, and in particular the two decks Spider is played with, hold no
      card 13 times, and every card of them is well-formed. */
  lemma FewDecksSparse(decks: int)
    requires decks <= 12
    ensures Sparse(multiset(FullDecks(decks)))
    ensures forall i :: 0 <= i < |FullDecks(decks)| ==> Standard(FullDecks(decks)[i]) && WellFormed(FullDecks(decks)[i])
  {
    forall c ensures multiset(FullDecks(decks))[c] <= 12 {
      FullDecksCount(decks, c);
    }
    forall i | 0 <= i < |FullDecks(decks)|
      ensures Standard(FullDecks(decks)[i]) && WellFormed(FullDecks(decks)[i])
    {
      var c := FullDecks(decks)[i];
      FullDecksCount(decks, c);
    }
  }

  /** Dealt from any shuffle of two decks, the search never records a win and never fails
      the consistency check, whatever its fuel: the opening deal holds each card at most
      twice, so no column ever ends in 13 identical cards. */
  lemma ShuffledDecksNeverWon(cards: seq<Card>, fuel: nat, digest: string -> string)
    requires multiset(cards) == multiset(FullDecks(2)) && DigestShaped(digest)
    ensures |cards| == 104
    ensures var R := Run(Start(InitialDeal(cards), digest), fuel, digest);
      R.won == 0 && R.status != InvariantFailed
  {
    assert |cards| == |multiset(cards)| == |FullDecks(2)|;
    DealtFromEnd(cards);
    var m := multiset(InPlay(InitialDeal(cards)));
    forall c ensures m[c] <= 12 {
      FullDecksCount(2, c);
    }
    SparseDealNeverWon(cards, fuel, digest);
  }
}
