/** The tableau of one Spider game as a value: ten face-down stacks, ten face-up
    stacks, the stock, the completed piles, the move log and the scan cursor. The
    functions here specify what the methods of the game object do to it. */
module Tableau {
  import opened Cards

  /** Ten columns. */
  const Columns: nat := 10

  /** The next (src, dst) pair the search will try; src == 10 means "time to deal". */
  datatype Cursor = Cursor(src: int, dst: int)

  /** An entry of the move log: a deal from the stock, or a move between columns. */
  datatype MoveRecord = Deal | Shift(src: int, dst: int)

  /** down[i][0] is the face-down card revealed next; up[i] runs bottom to top. */
  datatype Game = Game(
    down: seq<seq<Card>>,
    up: seq<seq<Card>>,
    pile: seq<Card>,
    done: seq<seq<Card>>,
    moves: seq<MoveRecord>,
    next: Cursor)

  /** The shape every game keeps: ten columns of each kind, a cursor in range, and a
      column without face-up cards has no face-down cards either (a face-down card is
      turned over as soon as the face-up cards above it are gone). */
  predicate Shaped(g: Game) {
    && |g.down| == Columns && |g.up| == Columns
    && 0 <= g.next.src && 0 <= g.next.dst < Columns
    && forall i :: 0 <= i < Columns ==> g.up[i] == [] ==> g.down[i] == []
  }

  /** Total number of cards in a list of stacks. */
  function Sum(cols: seq<seq<Card>>): nat {
    if cols == [] then 0 else |cols[0]| + Sum(cols[1..])
  }

  /** The stacks laid end to end. */
  function Flatten(cols: seq<seq<Card>>): (r: seq<Card>)
    ensures |r| == Sum(cols)
  {
    if cols == [] then [] else cols[0] + Flatten(cols[1..])
  }

  /** Every card still in play: face-down, face-up and stock (completed piles are out of play). */
  function InPlay(g: Game): seq<Card> {
    Flatten(g.down) + Flatten(g.up) + g.pile
  }

  /** The consistency check of SpiderGame._invariant: at most 8 completed piles of 13,
      ten face-down stacks of at most 5, ten face-up stacks, a stock of at most 50 cards
      in whole rows of ten, and 104 cards in all, each completed pile counted as 13. */
  predicate Consistent(g: Game) {
    && |g.done| <= 8
    && (forall i :: 0 <= i < |g.done| ==> |g.done[i]| == 13)
    && |g.down| == Columns
    && (forall i :: 0 <= i < |g.down| ==> |g.down[i]| <= 5)
    && |g.up| == Columns
    && |g.pile| <= 50
    && |g.pile| % 10 == 0
    && 13 * |g.done| + Sum(g.down) + Sum(g.up) + |g.pile| == 104
  }

  /** No card occurs 13 times or more: true of two standard decks (each card twice)
      and of the fixed fixture deal (four placeholders). */
  ghost predicate Sparse(m: multiset<Card>) {
    forall c :: m[c] <= 12
  }

  /** next_move: step the cursor to the next destination, wrapping to the next
      source after destination 9. */
  function NextCursor(c: Cursor): (r: Cursor)
    ensures c.dst + 1 < Columns ==> r == Cursor(c.src, c.dst + 1)
    ensures c.dst + 1 >= Columns ==> r == Cursor(c.src + 1, 0)
  {
    if c.dst + 1 >= Columns then Cursor(c.src + 1, 0) else Cursor(c.src, c.dst + 1)
  }

  /** The cursor after k calls of next_move. */
  function Advance(c: Cursor, k: nat): Cursor {
    if k == 0 then c else NextCursor(Advance(c, k - 1))
  }

  /** Starting from (0, 0), the k-th call of next_move yields (k / 10, k % 10): the
      pairs are visited in row-major order and the 100th call reaches (10, 0). */
  lemma {:induction false} ScanOrder(k: nat)
    ensures Advance(Cursor(0, 0), k) == Cursor(k / 10, k % 10)
  {
    if k > 0 {
      ScanOrder(k - 1);
    }
  }

  /** Every (src, dst) pair of columns is reached, exactly at step 10 * src + dst,
      and the scan ends at (10, 0) after 100 steps. */
  lemma ScanVisitsAllPairs(src: nat, dst: nat)
    requires src < Columns && dst < Columns
    ensures Advance(Cursor(0, 0), 10 * src + dst) == Cursor(src, dst)
    ensures Advance(Cursor(0, 0), 100) == Cursor(10, 0)
  {
    var k := 10 * src + dst;
    assert k / 10 == src && k % 10 == dst by {
      assert 10 * src <= k < 10 * src + 10;
    }
    ScanOrder(k);
    ScanOrder(100);
  }

  /** deal_from_pile on a non-empty stock: each face-up stack i receives stock card i
      on top, the stock loses its first ten cards, the log records the deal and the
      scan restarts at (0, 0). */
  function DealRow(g: Game): Game
    requires |g.up| == Columns && |g.pile| >= Columns
  {
    g.(up := seq(Columns, i requires 0 <= i < Columns => g.up[i] + [g.pile[i]]),
       pile := g.pile[Columns..],
       moves := g.moves + [Deal],
       next := Cursor(0, 0))
  }

  lemma {:induction false} SumOfRow(cols: seq<seq<Card>>, cols': seq<seq<Card>>, row: seq<Card>)
    requires |cols'| == |cols| <= |row|
    requires forall i :: 0 <= i < |cols| ==> cols'[i] == cols[i] + [row[i]]
    ensures Sum(cols') == Sum(cols) + |cols|
    ensures multiset(Flatten(cols')) == multiset(Flatten(cols)) + multiset(row[..|cols|])
  {
    if cols != [] {
      SumOfRow(cols[1..], cols'[1..], row[1..]);
      var n := |cols|;
      assert row[..n] == [row[0]] + row[1..][..n - 1];
      assert Flatten(cols') == (cols[0] + [row[0]]) + Flatten(cols'[1..]);
      assert Flatten(cols) == cols[0] + Flatten(cols[1..]);
      MultisetShift(multiset(cols[0]) + multiset{row[0]}, multiset(Flatten(cols'[1..])),
        multiset(Flatten(cols[1..])), multiset{}, multiset(row[1..][..n - 1]));
    }
  }

  /** Dealing a row keeps the game consistent and shaped, moves no card out of play
      and leaves the face-down stacks and completed piles alone. */
  lemma DealKeepsInvariant(g: Game)
    requires Consistent(g) && g.pile != []
    ensures |g.pile| >= Columns
    ensures Consistent(DealRow(g))
    ensures Shaped(g) ==> Shaped(DealRow(g))
    ensures multiset(InPlay(DealRow(g))) == multiset(InPlay(g))
  {
    var g' := DealRow(g);
    assert |g.pile| >= Columns;
    forall i | 0 <= i < Columns
      ensures g'.up[i] == g.up[i] + [g.pile[i]]
    {
    }
    SumOfRow(g.up, g'.up, g.pile);
    assert g.pile == g.pile[..Columns] + g'.pile;
    assert multiset(g.pile) == multiset(g.pile[..Columns]) + multiset(g'.pile);
    assert Consistent(g') by {
      assert g'.down == g.down && g'.done == g.done;
      assert |g'.pile| == |g.pile| - Columns;
    }
  }

  /** Replacing one stack changes the count and the cards by exactly that stack. */
  lemma {:induction false} FlattenUpdate(cols: seq<seq<Card>>, i: nat, x: seq<Card>)
    requires i < |cols|
    ensures Sum(cols[i := x]) + |cols[i]| == Sum(cols) + |x|
    ensures multiset(Flatten(cols[i := x])) + multiset(cols[i]) == multiset(Flatten(cols)) + multiset(x)
  {
    if i == 0 {
      assert cols[i := x][1..] == cols[1..];
    } else {
      var c' := cols[i := x];
      FlattenUpdate(cols[1..], i - 1, x);
      assert c'[0] == cols[0] && c'[1..] == cols[1..][i - 1 := x];
      assert cols[1..][i - 1] == cols[i];
      MultisetShift(multiset(cols[0]), multiset(Flatten(c'[1..])), multiset(Flatten(cols[1..])),
        multiset(cols[i]), multiset(x));
    }
  }

  /** Adding the same part to both sides of b + y == t + x. */
  lemma MultisetShift(a: multiset<Card>, b: multiset<Card>, t: multiset<Card>, y: multiset<Card>, x: multiset<Card>)
    requires b + y == t + x
    ensures a + b + y == a + t + x
  {
    forall c ensures (a + b + y)[c] == (a + t + x)[c] {
      assert (b + y)[c] == (t + x)[c];
    }
  }

  /** FlattenUpdate, counted card by card. */
  lemma FlattenUpdateCount(cols: seq<seq<Card>>, i: nat, x: seq<Card>, c: Card)
    requires i < |cols|
    ensures multiset(Flatten(cols[i := x]))[c] + multiset(cols[i])[c] == multiset(Flatten(cols))[c] + multiset(x)[c]
  {
    FlattenUpdate(cols, i, x);
    assert (multiset(Flatten(cols[i := x])) + multiset(cols[i]))[c] == (multiset(Flatten(cols)) + multiset(x))[c];
  }

  /** Every card of one stack is among the flattened cards. */
  lemma {:induction false} StackInFlatten(cols: seq<seq<Card>>, i: nat)
    requires i < |cols|
    ensures multiset(cols[i]) <= multiset(Flatten(cols))
  {
    if i > 0 {
      StackInFlatten(cols[1..], i - 1);
    }
  }

  /** Python's sum over a list of stacks grows one stack at a time. */
  lemma {:induction false} SumSnoc(cols: seq<seq<Card>>, col: seq<Card>)
    ensures Sum(cols + [col]) == Sum(cols) + |col|
  {
    if cols == [] {
      assert cols + [col] == [col] && [col][1..] == [];
    } else {
      assert (cols + [col])[1..] == cols[1..] + [col];
      SumSnoc(cols[1..], col);
    }
  }

  /** The k-th card taken by cards.pop(): cards are dealt from the end of the list. */
  function Popped(cards: seq<Card>, k: nat): Card
    requires k < |cards|
  {
    cards[|cards| - 1 - k]
  }

  /** A face-down stack after r rounds of `insert(0, cards.pop())` to every column:
      the card of the latest round is at index 0. */
  function Rounds(cards: seq<Card>, r: nat, col: nat): (s: seq<Card>)
    requires col < Columns && Columns * r <= |cards|
    ensures |s| == r
  {
    seq(r, t requires 0 <= t < r => Popped(cards, Columns * (r - 1 - t) + col))
  }

  /** The opening deal of SpiderGame.__init__: four rounds of one card to the front of
      every face-down stack, a fifth card to the front of the first four, one face-up
      card per column, then fifty cards appended to the stock. */
  function InitialDeal(cards: seq<Card>): Game
    requires |cards| >= 104
  {
    Game(
      seq(Columns, j requires 0 <= j < Columns =>
        (if j < 4 then [Popped(cards, 40 + j)] else []) + Rounds(cards, 4, j)),
      seq(Columns, j requires 0 <= j < Columns => [Popped(cards, 44 + j)]),
      seq(50, k requires 0 <= k < 50 => Popped(cards, 54 + k)),
      [], [], Cursor(0, 0))
  }

  /** The opening deal: face-down stacks of 5, 5, 5, 5, 4, 4, 4, 4, 4, 4 cards, one
      face-up card per column, a stock of 50 and no completed pile; the result passes
      the _invariant check and has the shape every game keeps. */
  lemma InitialDealFacts(cards: seq<Card>)
    requires |cards| >= 104
    ensures var g := InitialDeal(cards);
      && (forall j :: 0 <= j < Columns ==> |g.down[j]| == if j < 4 then 5 else 4)
      && (forall j :: 0 <= j < Columns ==> |g.up[j]| == 1)
      && |g.pile| == 50 && g.done == []
      && Consistent(g) && Shaped(g)
  {
    var g := InitialDeal(cards);
    var d := g.down;
    assert d == d[..4] + d[4..];
    SumAppend(d[..4], d[4..]);
    SumUniform(d[..4], 5);
    SumUniform(d[4..], 4);
    SumUniform(g.up, 1);
  }

  lemma {:induction false} SumAppend(a: seq<seq<Card>>, b: seq<seq<Card>>)
    ensures Sum(a + b) == Sum(a) + Sum(b)
  {
    if a != [] {
      assert (a + b)[1..] == a[1..] + b;
      SumAppend(a[1..], b);
    } else {
      assert a + b == b;
    }
  }

  lemma {:induction false} SumUniform(cols: seq<seq<Card>>, n: nat)
    requires forall j :: 0 <= j < |cols| ==> |cols[j]| == n
    ensures Sum(cols) == n * |cols|
  {
    if cols != [] {
      SumUniform(cols[1..], n);
    }
  }

  /** One more round puts the next popped card in front of the stack. */
  lemma RoundsGrow(cards: seq<Card>, r: nat, col: nat)
    requires col < Columns && Columns * (r + 1) <= |cards|
    ensures Rounds(cards, r + 1, col) == [Popped(cards, Columns * r + col)] + Rounds(cards, r, col)
  {
    var a, b := Rounds(cards, r + 1, col), [Popped(cards, Columns * r + col)] + Rounds(cards, r, col);
    forall t | 0 <= t < r + 1 ensures a[t] == b[t] {
      if t > 0 {
        assert b[t] == Rounds(cards, r, col)[t - 1];
      }
    }
  }
  /** The first 104 cards cards.pop() returns, in the order it returns them. */
  function DealOrder(cards: seq<Card>): (r: seq<Card>)
    requires |cards| >= 104
    ensures |r| == 104
  {
    seq(104, k requires 0 <= k < 104 => Popped(cards, k))
  }

  /** The face-down stacks after k full rounds of the opening deal. */
  function RoundStacks(cards: seq<Card>, k: nat): (cols: seq<seq<Card>>)
    requires Columns * k <= |cards|
    ensures |cols| == Columns
  {
    seq(Columns, j requires 0 <= j < Columns => Rounds(cards, k, j))
  }

  /** Putting row[i] in front of each of the first m stacks adds exactly row[..m]. */
  lemma {:induction false} PrependRow(cols: seq<seq<Card>>, cols': seq<seq<Card>>, row: seq<Card>, m: nat)
    requires |cols'| == |cols| && m <= |cols| && m <= |row|
    requires forall i :: 0 <= i < m ==> cols'[i] == [row[i]] + cols[i]
    requires forall i :: m <= i < |cols| ==> cols'[i] == cols[i]
    ensures multiset(Flatten(cols')) == multiset(Flatten(cols)) + multiset(row[..m])
  {
    if m == 0 {
      assert cols' == cols;
    } else {
      PrependRow(cols[1..], cols'[1..], row[1..], m - 1);
      assert row[..m] == [row[0]] + row[1..][..m - 1];
    }
  }

  /** Stacks of one card each, laid end to end, are those cards in order. */
  lemma {:induction false} FlattenSingletons(cols: seq<seq<Card>>, row: seq<Card>)
    requires |cols| == |row| && forall i :: 0 <= i < |cols| ==> cols[i] == [row[i]]
    ensures Flatten(cols) == row
  {
    if cols != [] {
      FlattenSingletons(cols[1..], row[1..]);
    }
  }

  /** Empty stacks laid end to end are empty. */
  lemma {:induction false} FlattenEmpty(cols: seq<seq<Card>>)
    requires forall i :: 0 <= i < |cols| ==> cols[i] == []
    ensures Flatten(cols) == []
  {
    if cols != [] {
      FlattenEmpty(cols[1..]);
    }
  }

  /** k full rounds hold exactly the first 10 * k cards popped. */
  lemma {:induction false} RoundsCount(cards: seq<Card>, k: nat)
    requires |cards| >= 104 && k <= 4
    ensures multiset(Flatten(RoundStacks(cards, k))) == multiset(DealOrder(cards)[..Columns * k])
  {
    if k == 0 {
      FlattenEmpty(RoundStacks(cards, 0));
      assert DealOrder(cards)[..Columns * k] == [];
    } else {
      RoundsCount(cards, k - 1);
      var r := DealOrder(cards);
      var row := r[Columns * (k - 1)..Columns * k];
      forall j | 0 <= j < Columns
        ensures RoundStacks(cards, k)[j] == [row[j]] + RoundStacks(cards, k - 1)[j]
      {
        RoundsGrow(cards, k - 1, j);
      }
      PrependRow(RoundStacks(cards, k - 1), RoundStacks(cards, k), row, Columns);
      assert row[..Columns] == row;
      assert r[..Columns * k] == r[..Columns * (k - 1)] + row;
      assert multiset(r[..Columns * k]) == multiset(r[..Columns * (k - 1)]) + multiset(row);
    }
  }

  /** Where each card of the opening deal comes from, in terms of the order of popping. */
  lemma InitialDealRows(cards: seq<Card>)
    requires |cards| >= 104
    ensures var g, r := InitialDeal(cards), DealOrder(cards);
      && |g.down| == Columns && |g.up| == Columns
      && (forall i :: 0 <= i < 4 ==> g.down[i] == [r[40..44][i]] + RoundStacks(cards, 4)[i])
      && (forall i :: 4 <= i < Columns ==> g.down[i] == RoundStacks(cards, 4)[i])
      && (forall i :: 0 <= i < Columns ==> g.up[i] == [r[44..54][i]])
      && g.pile == r[54..]
  {
    var g, r := InitialDeal(cards), DealOrder(cards);
    forall i | 4 <= i < Columns ensures g.down[i] == RoundStacks(cards, 4)[i] {
      assert [] + Rounds(cards, 4, i) == Rounds(cards, 4, i);
    }
    forall k | 0 <= k < 50 ensures g.pile[k] == r[54..][k] {
    }
  }

  /** Four consecutive slices of the 104 cards hold all of them. */
  lemma SplitDealOrder(r: seq<Card>)
    requires |r| == 104
    ensures multiset(r) == multiset(r[..40]) + multiset(r[40..44]) + multiset(r[44..54]) + multiset(r[54..])
  {
    assert r == r[..40] + r[40..44] + r[44..54] + r[54..];
  }

  /** The opening deal holds exactly the first 104 cards popped. */
  lemma InitialDealCards(cards: seq<Card>)
    requires |cards| >= 104
    ensures multiset(InPlay(InitialDeal(cards))) == multiset(DealOrder(cards))
  {
    var g, r := InitialDeal(cards), DealOrder(cards);
    InitialDealRows(cards);
    RoundsCount(cards, 4);
    var extra := r[40..44];
    assert extra[..4] == extra;
    PrependRow(RoundStacks(cards, 4), g.down, extra, 4);
    FlattenSingletons(g.up, r[44..54]);
    SplitDealOrder(r);
  }

  /** The reverse of a sequence holds the same cards. */
  lemma {:induction false} ReversedCount(s: seq<Card>)
    ensures multiset(seq(|s|, k requires 0 <= k < |s| => s[|s| - 1 - k])) == multiset(s)
  {
    if s != [] {
      var n := |s|;
      var init := s[..n - 1];
      ReversedCount(init);
      var rev := seq(n, k requires 0 <= k < n => s[n - 1 - k]);
      var revInit := seq(n - 1, k requires 0 <= k < n - 1 => init[n - 2 - k]);
      assert rev == [s[n - 1]] + revInit;
      assert s == init + [s[n - 1]];
    }
  }

  /** SpiderGame.__init__ consumes the last 104 cards of the list: the opening deal holds
      exactly those cards, and so never more copies of a card than the list has. */
  lemma DealtFromEnd(cards: seq<Card>)
    requires |cards| >= 104
    ensures multiset(InPlay(InitialDeal(cards))) == multiset(cards[|cards| - 104..])
    ensures multiset(InPlay(InitialDeal(cards))) <= multiset(cards)
  {
    var tail := cards[|cards| - 104..];
    InitialDealCards(cards);
    ReversedCount(tail);
    assert DealOrder(cards) == seq(|tail|, k requires 0 <= k < |tail| => tail[|tail| - 1 - k]);
    assert cards == cards[..|cards| - 104] + tail;
  }
}
