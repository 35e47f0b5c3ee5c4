/** The string get_hash feeds to its digest: a '*' before every face-down stack, every
    face-up stack and the stock, each followed by the names of its cards. The digest
    itself (MD5) is not modelled here; this module shows that the string it digests
    determines the face-down stacks, face-up stacks and stock exactly. */
module Fingerprint {
  import opened Cards
  import opened Tableau

  /** The names of a stack's cards, bottom to top, run together. */
  function Names(cs: seq<Card>): string {
    if cs == [] then [] else CardName(cs[0]) + Names(cs[1..])
  }

  /** Each stack preceded by '*'. */
  function Joined(cols: seq<seq<Card>>): string {
    if cols == [] then [] else "*" + Names(cols[0]) + Joined(cols[1..])
  }

  /** The pre-image of get_hash: the ten face-down stacks, then the ten face-up stacks,
      then the stock. The completed piles, the move log and the cursor take no part. */
  function Preimage(g: Game): string {
    Joined(g.down + g.up + [g.pile])
  }

  /** Every card of every stack is well-formed. */
  predicate StacksWellFormed(cols: seq<seq<Card>>) {
    forall i, j :: 0 <= i < |cols| && 0 <= j < |cols[i]| ==> WellFormed(cols[i][j])
  }

  /** Reads the names of a sequence of well-formed cards back. */
  function ParseCards(s: string): Option<seq<Card>>
    decreases |s|
  {
    if s == [] then Some([])
    else match ParseCard(s)
      case None => None
      case Some((c, k)) =>
        match ParseCards(s[k..])
        case None => None
        case Some(cs) => Some([c] + cs)
  }

  /** The position of the first '*' in s, or |s| if there is none. */
  function NextStar(s: string): (r: nat)
    ensures r <= |s| && '*' !in s[..r] && (r < |s| ==> s[r] == '*')
  {
    if s == [] then 0 else if s[0] == '*' then 0 else 1 + NextStar(s[1..])
  }

  /** Splits a pre-image back into its stacks. */
  function ParseStacks(s: string): Option<seq<seq<Card>>>
    decreases |s|
  {
    if s == [] then Some([])
    else if s[0] != '*' then None
    else
      var body := s[1..];
      var k := NextStar(body);
      match ParseCards(body[..k])
      case None => None
      case Some(col) =>
        match ParseStacks(body[k..])
        case None => None
        case Some(rest) => Some([col] + rest)
  }

  /** The names of well-formed cards contain no '*'. */
  lemma {:induction false} NamesStarFree(cs: seq<Card>)
    requires forall j :: 0 <= j < |cs| ==> WellFormed(cs[j])
    ensures '*' !in Names(cs)
  {
    if cs != [] {
      KnownCardName(cs[0]);
      NamesStarFree(cs[1..]);
    }
  }

  /** One card of a run of names: a name ParseCard reads off whole, then the rest. */
  lemma ParseCardsStep(name: string, rest: string, c: Card)
    requires name != [] && ParseCard(name + rest) == Some((c, |name|))
    ensures ParseCards(name + rest) ==
      if ParseCards(rest).Some? then Some([c] + ParseCards(rest).value) else None
  {
    assert (name + rest)[|name|..] == rest;
  }

  /** Names are read back exactly. */
  lemma {:induction false} ParseNames(cs: seq<Card>)
    requires forall j :: 0 <= j < |cs| ==> WellFormed(cs[j])
    ensures ParseCards(Names(cs)) == Some(cs)
  {
    if cs != [] {
      ParseCardName(cs[0], Names(cs[1..]));
      ParseCardsStep(CardName(cs[0]), Names(cs[1..]), cs[0]);
      ParseNames(cs[1..]);
      assert cs == [cs[0]] + cs[1..];
    }
  }

  /** The first '*' after a star-free string is where the next stack starts. */
  lemma {:induction false} NextStarOfConcat(a: string, b: string)
    requires '*' !in a && (b == [] || b[0] == '*')
    ensures NextStar(a + b) == |a|
  {
    if a == [] {
      assert a + b == b;
    } else {
      assert (a + b)[0] == a[0] && (a + b)[1..] == a[1..] + b;
      assert '*' !in a[1..] by {
        assert forall i :: 0 <= i < |a[1..]| ==> a[1..][i] == a[i + 1];
      }
      NextStarOfConcat(a[1..], b);
    }
  }

  /** One stack of the pre-image: a '*', a star-free run of names, then the next stack. */
  lemma ParseStacksStep(names: string, rest: string, col: seq<Card>)
    requires '*' !in names && ParseCards(names) == Some(col)
    requires rest == [] || rest[0] == '*'
    ensures ParseStacks("*" + names + rest) ==
      if ParseStacks(rest).Some? then Some([col] + ParseStacks(rest).value) else None
  {
    var s := "*" + names + rest;
    assert s[1..] == names + rest;
    NextStarOfConcat(names, rest);
    assert (names + rest)[..|names|] == names && (names + rest)[|names|..] == rest;
  }

  /** Joined stacks start with '*', or are empty. */
  lemma JoinedStart(cols: seq<seq<Card>>)
    ensures Joined(cols) == [] || Joined(cols)[0] == '*'
  {
  }

  /** The pre-image of stacks of well-formed cards is read back exactly. */
  lemma {:induction false} ParseJoined(cols: seq<seq<Card>>)
    requires StacksWellFormed(cols)
    ensures ParseStacks(Joined(cols)) == Some(cols)
  {
    if cols != [] {
      assert forall j :: 0 <= j < |cols[0]| ==> WellFormed(cols[0][j]);
      NamesStarFree(cols[0]);
      ParseNames(cols[0]);
      JoinedStart(cols[1..]);
      ParseStacksStep(Names(cols[0]), Joined(cols[1..]), cols[0]);
      assert StacksWellFormed(cols[1..]) by {
        forall i, j | 0 <= i < |cols[1..]| && 0 <= j < |cols[1..][i]|
          ensures WellFormed(cols[1..][i][j])
        {
          assert cols[1..][i] == cols[i + 1];
        }
      }
      ParseJoined(cols[1..]);
      assert cols == [cols[0]] + cols[1..];
    }
  }

  /** The face-down stacks, face-up stacks and stock, in the order get_hash visits them. */
  function Observed(g: Game): seq<seq<Card>> {
    g.down + g.up + [g.pile]
  }

  /** Two tableaux of well-formed cards, each with ten face-down and ten face-up stacks,
      give the same pre-image exactly when their face-down stacks, face-up stacks and
      stocks agree; how they were reached, their cursors and their completed piles do
      not matter. */
  lemma PreimageInjective(g: Game, h: Game)
    requires |g.down| == |h.down| == Columns && |g.up| == |h.up| == Columns
    requires StacksWellFormed(Observed(g)) && StacksWellFormed(Observed(h))
    ensures Preimage(g) == Preimage(h) <==>
      g.down == h.down && g.up == h.up && g.pile == h.pile
  {
    if Preimage(g) == Preimage(h) {
      ParseJoined(Observed(g));
      ParseJoined(Observed(h));
      var o, p := Observed(g), Observed(h);
      assert o == p;
      assert g.down == o[..Columns] && h.down == p[..Columns];
      assert g.up == o[Columns..2 * Columns] && h.up == p[Columns..2 * Columns];
      assert g.pile == o[2 * Columns] && h.pile == p[2 * Columns];
    }
  }

  /** Appending a card appends its name. */
  lemma {:induction false} NamesSnoc(cs: seq<Card>, c: Card)
    ensures Names(cs + [c]) == Names(cs) + CardName(c)
  {
    if cs == [] {
      assert cs + [c] == [c] && [c][1..] == [];
    } else {
      var t := cs + [c];
      assert t[0] == cs[0] && t[1..] == cs[1..] + [c];
      NamesSnoc(cs[1..], c);
      var h, m := CardName(cs[0]), Names(cs[1..]);
      assert Names(t) == h + Names(cs[1..] + [c]);
      assert h + (m + CardName(c)) == (h + m) + CardName(c);
    }
  }

  lemma StarAssoc(h: string, m: string, n: string)
    ensures h + ((m + "*") + n) == ((h + m) + "*") + n
  {
  }

  /** Appending a stack appends '*' and its names. */
  lemma {:induction false} JoinedSnoc(cols: seq<seq<Card>>, col: seq<Card>)
    ensures Joined(cols + [col]) == Joined(cols) + "*" + Names(col)
  {
    if cols == [] {
      assert cols + [col] == [col] && [col][1..] == [];
    } else {
      var t := cols + [col];
      assert t[0] == cols[0] && t[1..] == cols[1..] + [col];
      JoinedSnoc(cols[1..], col);
      var h, m := "*" + Names(cols[0]), Joined(cols[1..]);
      assert Joined(t) == h + Joined(cols[1..] + [col]);
      StarAssoc(h, m, Names(col));
    }
  }
}
