/** Cards and their short names.

    A card is a (rank, suit) pair. Ranks 1..13 are Ace..King; the rank 0 is the
    placeholder used by fixed test deals for a card whose identity is unknown.
    The suit is one character: S, H, C or D for real cards, X for the placeholder. */
module Cards {

  datatype Option<T> = None | Some(value: T)

  datatype Card = Card(rank: int, suit: char)

  /** A card whose name can be read back unambiguously: a rank the naming scheme knows
      and a suit character that is not the column separator of the fingerprint. */
  predicate WellFormed(c: Card) {
    0 <= c.rank <= 13 && c.suit != '*'
  }

  predicate IsDigit(ch: char) {
    '0' <= ch <= '9'
  }

  function DigitChar(d: nat): (ch: char)
    requires d < 10
    ensures IsDigit(ch) && ch as int - '0' as int == d
  {
    ('0' as int + d) as char
  }

  /** The value of a string of decimal digits. */
  function DigitsValue(s: string): nat
    requires forall i :: 0 <= i < |s| ==> IsDigit(s[i])
  {
    if s == [] then 0
    else
      assert IsDigit(s[|s| - 1]);
      DigitsValue(s[..|s| - 1]) * 10 + (s[|s| - 1] as int - '0' as int)
  }

  /** Decimal rendering of a natural number, without leading zeros. */
  function Digits(n: nat): (r: string)
    ensures |r| >= 1
  {
    if n < 10 then [DigitChar(n)] else Digits(n / 10) + [DigitChar(n % 10)]
  }

  /** Digits renders n: every character is a decimal digit, the digits read back as n,
      and only 0 itself starts with '0'. */
  lemma {:induction false} DigitsReadBack(n: nat)
    ensures forall i :: 0 <= i < |Digits(n)| ==> IsDigit(Digits(n)[i])
    ensures DigitsValue(Digits(n)) == n
    ensures Digits(n)[0] == '0' ==> n == 0
  {
    if n >= 10 {
      DigitsReadBack(n / 10);
      var r := Digits(n);
      assert r == Digits(n / 10) + [DigitChar(n % 10)];
      assert r[..|r| - 1] == Digits(n / 10);
      assert r[0] == Digits(n / 10)[0];
    }
  }

  /** Python's str() of an integer: an optional minus sign, then the digits. */
  function IntString(n: int): (r: string)
    ensures |r| >= 1
  {
    if n < 0 then "-" + Digits(-n) else Digits(n)
  }

  /** str() of an integer starts with a digit exactly when the integer is not negative;
      a negative one is '-' followed by the rendering of its magnitude. */
  lemma IntStringShape(n: int)
    ensures n >= 0 <==> IsDigit(IntString(n)[0])
    ensures n < 0 ==> IntString(n)[0] == '-' && IntString(n)[1..] == Digits(-n)
    ensures n >= 0 ==> IntString(n) == Digits(n)
  {
    DigitsReadBack(if n < 0 then -n else n);
    if n < 0 {
      assert ("-" + Digits(-n))[1..] == Digits(-n);
    }
  }

  /** The rank part of a card's name: A, J, Q, K for 1, 11, 12, 13, the decimal
      rendering of the rank otherwise. */
  function RankToken(rank: int): string {
    if rank == 1 then "A"
    else if rank == 11 then "J"
    else if rank == 12 then "Q"
    else if rank == 13 then "K"
    else IntString(rank)
  }

  /** card_name: the rank token followed by the suit character, e.g. AS, 10H, QD, 0X. */
  function CardName(c: Card): (r: string)
    ensures |r| >= 2 && r[|r| - 1] == c.suit
  {
    RankToken(c.rank) + [c.suit]
  }

  /** The name of a well-formed card has two characters, three for a 10, and no '*'. */
  lemma KnownCardName(c: Card)
    requires WellFormed(c)
    ensures 2 <= |CardName(c)| <= 3 && '*' !in CardName(c)
    ensures |CardName(c)| == 3 <==> c.rank == 10
  {
    TokenOfKnownRank(c.rank);
  }

  /** Reads one card name off the front of `s`: the card and the number of characters
      its name takes, or None if `s` does not start with the name of a well-formed card. */
  function ParseCard(s: string): (r: Option<(Card, nat)>)
    ensures r.Some? ==> 2 <= r.value.1 <= |s| && WellFormed(r.value.0)
  {
    if |s| < 2 then None
    else if s[0] == '1' then
      if |s| >= 3 && s[1] == '0' then Suited(10, s[2], 3) else None
    else if s[0] == 'A' then Suited(1, s[1], 2)
    else if s[0] == 'J' then Suited(11, s[1], 2)
    else if s[0] == 'Q' then Suited(12, s[1], 2)
    else if s[0] == 'K' then Suited(13, s[1], 2)
    else if s[0] == '0' || '2' <= s[0] <= '9' then Suited(s[0] as int - '0' as int, s[1], 2)
    else None
  }

  function Suited(rank: int, suit: char, len: nat): Option<(Card, nat)> {
    if suit == '*' then None else Some((Card(rank, suit), len))
  }

  /** The rank token of every rank the naming scheme knows. */
  lemma TokenOfKnownRank(rank: int)
    requires 0 <= rank <= 13
    ensures rank == 1 ==> RankToken(rank) == "A"
    ensures rank == 11 ==> RankToken(rank) == "J"
    ensures rank == 12 ==> RankToken(rank) == "Q"
    ensures rank == 13 ==> RankToken(rank) == "K"
    ensures rank == 10 ==> RankToken(rank) == "10"
    ensures rank != 10 ==> |RankToken(rank)| == 1
    ensures rank == 0 || 2 <= rank <= 9 ==> RankToken(rank) == [DigitChar(rank)]
    ensures '*' !in RankToken(rank)
  {
    if rank == 10 {
      assert Digits(10) == Digits(1) + [DigitChar(0)];
    }
  }

  /** Card names are read back: whatever follows a card's name, ParseCard recovers
      exactly that card and the length of its name. */
  lemma ParseCardName(c: Card, rest: string)
    requires WellFormed(c)
    ensures ParseCard(CardName(c) + rest) == Some((c, |CardName(c)|))
  {
    TokenOfKnownRank(c.rank);
    var s := CardName(c) + rest;
    if c.rank == 10 {
      assert s[0] == '1' && s[1] == '0' && s[2] == c.suit;
    } else if c.rank == 0 || 2 <= c.rank <= 9 {
      assert s[0] == DigitChar(c.rank) && s[1] == c.suit;
    } else {
      assert s[1] == c.suit;
    }
  }

  /** Two well-formed cards with the same name are the same card. */
  lemma CardNameInjective(c: Card, d: Card)
    requires WellFormed(c) && WellFormed(d)
    requires CardName(c) == CardName(d)
    ensures c == d
  {
    ParseCardName(c, []);
    ParseCardName(d, []);
    assert CardName(c) + [] == CardName(d) + [];
  }
}
